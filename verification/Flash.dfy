/** `cmd_flash`: plan, guard, and flash the regions, the read-only one last. */
module Flash {
  import opened Results
  import opened Bytes
  import opened Nor
  import opened Bench
  import opened Fmap
  import opened FmapLayout
  import opened Plan
  import opened Flashing
  import opened Sessions
  import Boot

  const RO_GUARD_LIMIT: nat := 0x400000

  /** The bytes of the image that belong to a span. */
  function Source(image: seq<byte>, s: Span): seq<byte>
  {
    Slice(image, s.off, s.End())
  }

  ghost predicate Written(mem: seq<byte>, image: seq<byte>, s: Span)
  {
    Stands(mem, s.off, Source(image, s))
  }

  /** Some byte of the span differs from its initial value. */
  ghost predicate Changed(m0: seq<byte>, m: seq<byte>, s: Span)
  {
    exists x: nat :: x < |m0| && x < |m| && Contains(s, x) && m[x] != m0[x]
  }

  ghost predicate Planned(plan: seq<Span>, n: nat, x: nat)
  {
    exists j :: 0 <= j < n && j < |plan| && Contains(plan[j], x)
  }

  /** Only bytes of the first n spans have changed. */
  ghost predicate KeptOutside(m0: seq<byte>, m: seq<byte>, plan: seq<Span>, n: nat)
  {
    && |m| == |m0|
    && forall x: nat {:trigger m[x]} :: x < |m0| && !Planned(plan, n, x) ==> m[x] == m0[x]
  }

  /** The spans whose verification is sound: no sector is all zero. */
  predicate Verifiable(image: seq<byte>, s: Span)
  {
    Aligned(|Source(image, s)|) && SectorsNonzero(Source(image, s))
  }

  /** A span has changed only when all verifiable spans before it are written. */
  ghost predicate InOrder(m0: seq<byte>, m: seq<byte>, image: seq<byte>, plan: seq<Span>)
  {
    forall i, j :: 0 <= i < j < |plan| && Verifiable(image, plan[i]) && Changed(m0, m, plan[j]) ==>
      Written(m, image, plan[i])
  }

  /** The verifiable ones of the first k spans are written. */
  ghost predicate WrittenUpTo(m: seq<byte>, image: seq<byte>, plan: seq<Span>, k: nat)
  {
    forall i :: 0 <= i < k && i < |plan| && Verifiable(image, plan[i]) ==> Written(m, image, plan[i])
  }

  ghost predicate FrameHeld(h0: seq<seq<byte>>, h: seq<seq<byte>>, m0: seq<byte>, plan: seq<Span>, n: nat)
  {
    && |h0| <= |h| && h[..|h0|] == h0
    && forall k {:trigger h[k]} :: |h0| <= k < |h| ==> KeptOutside(m0, h[k], plan, n)
  }

  ghost predicate OrderHeld(h0: seq<seq<byte>>, h: seq<seq<byte>>, m0: seq<byte>, image: seq<byte>, plan: seq<Span>)
  {
    forall k {:trigger h[k]} :: |h0| <= k < |h| ==> InOrder(m0, h[k], image, plan)
  }

  /** What every plan that flash_plan accepts is like. */
  ghost predicate GoodPlan(plan: seq<Span>)
  {
    && NoneShare(plan)
    && (forall i, j :: 0 <= i < j < |plan| ==> plan[i] != plan[j])
    && (forall s :: s in plan ==> Aligned(s.off) && Aligned(s.size))
  }

  lemma SourceFits(image: seq<byte>, s: Span)
    requires |image| == FLASH_SIZE && Aligned(s.off) && Aligned(s.size)
    ensures Aligned(|Source(image, s)|) && |Source(image, s)| <= s.size
    ensures Source(image, s) != [] ==> s.off + |Source(image, s)| <= FLASH_SIZE
  {
    if s.off <= FLASH_SIZE && s.End() > FLASH_SIZE {
      assert s.off == SECTOR_SIZE * (s.off / SECTOR_SIZE);
      Multiple(0x800 - s.off / SECTOR_SIZE);
    }
  }

  /** The image has all of a span's bytes exactly if the span ends inside the chip. */
  lemma SourceWhole(image: seq<byte>, s: Span)
    requires |image| == FLASH_SIZE
    ensures |Source(image, s)| == s.size <==> s.size == 0 || s.End() <= FLASH_SIZE
    ensures s.End() <= FLASH_SIZE ==> Source(image, s) == image[s.off..s.End()]
    ensures s.off <= FLASH_SIZE <= s.End() ==> Source(image, s) == image[s.off..]
  {
  }

  /** Of a span past the chip nothing is flashed, and nothing is asked. */
  lemma OutsideIsVacuous(m: seq<byte>, image: seq<byte>, s: Span)
    requires |image| <= FLASH_SIZE && s.off >= FLASH_SIZE
    ensures Source(image, s) == [] && Written(m, image, s) && Verifiable(image, s)
  {
  }

  /** Written spans inside the chip hold all of their bytes. */
  lemma WrittenWhole(m: seq<byte>, image: seq<byte>, plan: seq<Span>)
    requires |m| == FLASH_SIZE && |image| == FLASH_SIZE && WrittenUpTo(m, image, plan, |plan|)
    ensures forall s :: s in plan && Verifiable(image, s) && s.End() <= FLASH_SIZE ==>
      m[s.off..s.End()] == image[s.off..s.End()]
  {
    forall s | s in plan && Verifiable(image, s) && s.End() <= FLASH_SIZE
      ensures m[s.off..s.End()] == image[s.off..s.End()]
    {
      var i :| 0 <= i < |plan| && plan[i] == s;
      assert Written(m, image, s);
      WrittenIsSlice(m, image, s);
      SourceWhole(image, s);
    }
  }

  // ---------------------------------------------------- one span at a time

  lemma PhaseFrame(m0: seq<byte>, mk: seq<byte>, m: seq<byte>, plan: seq<Span>, k: nat, len: nat)
    requires k < |plan| && len <= plan[k].size
    requires KeptOutside(m0, mk, plan, k) && Kept(mk, m, plan[k].off, plan[k].off + len)
    ensures KeptOutside(m0, m, plan, k + 1)
  {
    forall x: nat
      ensures Planned(plan, k, x) ==> Planned(plan, k + 1, x)
    {
    }
    forall x: nat {:trigger m[x]} | x < |m0| && !Planned(plan, k + 1, x)
      ensures m[x] == m0[x]
    {
      assert !Contains(plan[k], x);
      assert mk[x] == m0[x];
    }
  }

  /** Flashing span k leaves an earlier, disjoint span as it was. */
  lemma WrittenStays(mk: seq<byte>, m: seq<byte>, image: seq<byte>, plan: seq<Span>, i: nat, k: nat, len: nat)
    requires GoodPlan(plan) && i < k < |plan| && len <= plan[k].size && |image| == FLASH_SIZE && |mk| == FLASH_SIZE
    requires Kept(mk, m, plan[k].off, plan[k].off + len)
    ensures Written(m, image, plan[i]) <==> Written(mk, image, plan[i])
  {
    var s, data := plan[i], Source(image, plan[i]);
    SourceFits(image, s);
    if data != [] {
      forall x | s.off <= x < s.off + |data|
        ensures m[x] == mk[x]
      {
        assert Contains(s, x) && !Share(s, plan[k]);
      }
      SameHolds(mk, m, s.off, data);
      SameHolds(m, mk, s.off, data);
    }
  }

  lemma SameHolds(m0: seq<byte>, m1: seq<byte>, a: nat, data: seq<byte>)
    requires |m0| == |m1| && a + |data| <= |m0|
    requires forall x :: a <= x < a + |data| ==> m1[x] == m0[x]
    ensures Holds(m0, a, data) ==> Holds(m1, a, data)
  {
  }

  /** While span k is being flashed, spans after it are untouched and spans before
      it stay written. */
  lemma PhaseOrder(m0: seq<byte>, mk: seq<byte>, m: seq<byte>, image: seq<byte>, plan: seq<Span>, k: nat, len: nat)
    requires GoodPlan(plan) && k < |plan| && len <= plan[k].size && |image| == FLASH_SIZE && |mk| == FLASH_SIZE
    requires KeptOutside(m0, mk, plan, k) && Kept(mk, m, plan[k].off, plan[k].off + len)
    requires WrittenUpTo(mk, image, plan, k)
    ensures WrittenUpTo(m, image, plan, k)
    ensures InOrder(m0, m, image, plan)
  {
    forall i | 0 <= i < k && Verifiable(image, plan[i])
      ensures Written(m, image, plan[i])
    {
      WrittenStays(mk, m, image, plan, i, k, len);
    }
    PhaseFrame(m0, mk, m, plan, k, len);
    forall i, j | 0 <= i < j < |plan| && Verifiable(image, plan[i]) && Changed(m0, m, plan[j])
      ensures Written(m, image, plan[i])
    {
      UntouchedAfter(m0, m, plan, j, k + 1);
    }
  }

  lemma UntouchedAfter(m0: seq<byte>, m: seq<byte>, plan: seq<Span>, j: nat, n: nat)
    requires GoodPlan(plan) && j < |plan| && KeptOutside(m0, m, plan, n) && Changed(m0, m, plan[j])
    ensures j < n
  {
    var x: nat :| x < |m0| && x < |m| && Contains(plan[j], x) && m[x] != m0[x];
    assert Planned(plan, n, x);
    var i :| 0 <= i < n && i < |plan| && Contains(plan[i], x);
    assert Share(plan[i], plan[j]);
  }

  /** The flasher after the first k spans. */
  ghost predicate Flashed(b0: Board, b: Board, image: seq<byte>, plan: seq<Span>, k: nat)
  {
    && b.Valid() && b.chip.high1 == b0.chip.high1 && b.chip.sr2 == b0.chip.sr2
    && b.begun - b.ended == b0.begun - b0.ended && b0.begun <= b.begun
    && b.peak <= Max(b0.peak, b0.begun - b0.ended + 1)
    && KeptOutside(b0.chip.mem, b.chip.mem, plan, k)
    && FrameHeld(b0.hist, b.hist, b0.chip.mem, plan, k)
    && (!b0.chip.Honours() ==> Touched(b0, b, 0, 0))
    && OrderHeld(b0.hist, b.hist, b0.chip.mem, image, plan)
  }

  lemma FlashedStep(b0: Board, b: Board, b': Board, image: seq<byte>, plan: seq<Span>, k: nat, len: nat)
    requires Flashed(b0, b, image, plan, k) && GoodPlan(plan) && k < |plan| && |image| == FLASH_SIZE
    requires len <= plan[k].size && Touched(b, b', plan[k].off, plan[k].off + len)
    requires b'.begun - b'.ended == b.begun - b.ended && b.begun <= b'.begun
    requires b'.peak <= Max(b.peak, b.begun - b.ended + 1)
    requires b0.ended <= b0.begun && (!b.chip.Honours() ==> Touched(b, b', 0, 0))
    requires !b0.chip.Complemented() ==> WrittenUpTo(b.chip.mem, image, plan, k)
    ensures Flashed(b0, b', image, plan, k + 1)
    ensures !b0.chip.Complemented() ==> WrittenUpTo(b'.chip.mem, image, plan, k)
  {
    var m0 := b0.chip.mem;
    PhaseFrame(m0, b.chip.mem, b'.chip.mem, plan, k, len);
    FrameStep(m0, b0, b, b', plan, k, len);
    if !b0.chip.Complemented() {
      PhaseOrder(m0, b.chip.mem, b'.chip.mem, image, plan, k, len);
      OrderStep(m0, b0, b, b', image, plan, k, len);
    }
    if !b0.chip.Honours() {
      TouchedTrans(b0, b, b', 0, 0, 0, 0);
      StillInOrder(b0, b', image, plan);
    }
  }

  /** Where no cell changes nothing is out of order. */
  lemma StillInOrder(b0: Board, b: Board, image: seq<byte>, plan: seq<Span>)
    requires Touched(b0, b, 0, 0)
    ensures OrderHeld(b0.hist, b.hist, b0.chip.mem, image, plan)
  {
    forall t {:trigger b.hist[t]} | |b0.hist| <= t < |b.hist|
      ensures InOrder(b0.chip.mem, b.hist[t], image, plan)
    {
      assert Kept(b0.chip.mem, b.hist[t], 0, 0);
    }
  }

  lemma FrameStep(m0: seq<byte>, b0: Board, b: Board, b': Board, plan: seq<Span>, k: nat, len: nat)
    requires k < |plan| && len <= plan[k].size && Touched(b, b', plan[k].off, plan[k].off + len)
    requires KeptOutside(m0, b.chip.mem, plan, k) && FrameHeld(b0.hist, b.hist, m0, plan, k)
    ensures FrameHeld(b0.hist, b'.hist, m0, plan, k + 1)
  {
    assert b'.hist[..|b0.hist|] == b'.hist[..|b.hist|][..|b0.hist|];
    forall t {:trigger b'.hist[t]} | |b0.hist| <= t < |b'.hist|
      ensures KeptOutside(m0, b'.hist[t], plan, k + 1)
    {
      if t < |b.hist| {
        assert b'.hist[t] == b'.hist[..|b.hist|][t] == b.hist[t];
        KeptMore(m0, b.hist[t], plan, k);
      } else {
        PhaseFrame(m0, b.chip.mem, b'.hist[t], plan, k, len);
      }
    }
  }

  lemma KeptMore(m0: seq<byte>, m: seq<byte>, plan: seq<Span>, k: nat)
    requires KeptOutside(m0, m, plan, k)
    ensures KeptOutside(m0, m, plan, k + 1)
  {
    forall x: nat | Planned(plan, k, x)
      ensures Planned(plan, k + 1, x)
    {
    }
  }

  lemma OrderStep(m0: seq<byte>, b0: Board, b: Board, b': Board, image: seq<byte>, plan: seq<Span>, k: nat, len: nat)
    requires GoodPlan(plan) && k < |plan| && len <= plan[k].size && |image| == FLASH_SIZE && b.Valid()
    requires Touched(b, b', plan[k].off, plan[k].off + len) && |b0.hist| <= |b.hist|
    requires KeptOutside(m0, b.chip.mem, plan, k) && OrderHeld(b0.hist, b.hist, m0, image, plan)
    requires WrittenUpTo(b.chip.mem, image, plan, k)
    ensures OrderHeld(b0.hist, b'.hist, m0, image, plan)
  {
    forall t {:trigger b'.hist[t]} | |b0.hist| <= t < |b'.hist|
      ensures InOrder(m0, b'.hist[t], image, plan)
    {
      if t < |b.hist| {
        assert b'.hist[t] == b'.hist[..|b.hist|][t] == b.hist[t];
      } else {
        PhaseOrder(m0, b.chip.mem, b'.hist[t], image, plan, k, len);
      }
    }
  }

  // -------------------------------------------- the plan, session by session

  /** What became of a plan: did all spans return, which session comes next, and
      which of the spans hold their data? */
  datatype Runs = Runs(ok: bool, next: nat, stored: seq<bool>)

  /** The first n spans in a uniform world, one after the other from session k on. */
  ghost function RunPlan(budget: nat -> nat, k: nat, image: seq<byte>, plan: seq<Span>, n: nat, p: nat): (runs: Runs)
    requires GoodPlan(plan) && |image| == FLASH_SIZE && n <= |plan|
    ensures runs.next >= k && (runs.ok ==> |runs.stored| == n)
  {
    if n == 0 then Runs(true, k, [])
    else
      var front := RunPlan(budget, k, image, plan, n - 1, p);
      if !front.ok then front
      else
        SourceAligned(image, plan, n - 1);
        var last := RunAll(budget, front.next, Source(image, plan[n - 1]), p);
        Runs(last.ok, last.next, front.stored + [last.stored])
  }

  lemma SourceAligned(image: seq<byte>, plan: seq<Span>, i: nat)
    requires GoodPlan(plan) && |image| == FLASH_SIZE && i < |plan|
    ensures Aligned(|Source(image, plan[i])|)
  {
    assert plan[i] in plan;
    SourceFits(image, plan[i]);
  }

  lemma {:induction false} RunPlanStops(budget: nat -> nat, k: nat,
                                        image: seq<byte>, plan: seq<Span>, m: nat, n: nat, p: nat)
    requires GoodPlan(plan) && |image| == FLASH_SIZE && m <= n <= |plan|
    requires !RunPlan(budget, k, image, plan, m, p).ok
    ensures RunPlan(budget, k, image, plan, n, p) == RunPlan(budget, k, image, plan, m, p)
  {
    if m < n {
      RunPlanStops(budget, k, image, plan, m, n - 1, p);
      assert !RunPlan(budget, k, image, plan, n - 1, p).ok;
    }
  }

  lemma {:induction false} RunPlanLocal(b1: nat -> nat, b2: nat -> nat, k: nat,
                                        image: seq<byte>, plan: seq<Span>, n: nat, p: nat)
    requires GoodPlan(plan) && |image| == FLASH_SIZE && n <= |plan|
    requires forall i :: k <= i < RunPlan(b1, k, image, plan, n, p).next ==> b1(i) == b2(i)
    ensures RunPlan(b1, k, image, plan, n, p) == RunPlan(b2, k, image, plan, n, p)
  {
    if n > 0 {
      var front := RunPlan(b1, k, image, plan, n - 1, p);
      RunPlanLocal(b1, b2, k, image, plan, n - 1, p);
      if front.ok {
        SourceAligned(image, plan, n - 1);
        RunAllLocal(b1, b2, front.next, Source(image, plan[n - 1]), p);
      }
    }
  }

  lemma {:induction false} RunPlanSound(budget: nat -> nat, k: nat,
                                        image: seq<byte>, plan: seq<Span>, n: nat, p: nat, i: nat)
    requires GoodPlan(plan) && |image| == FLASH_SIZE && i < n <= |plan|
    requires RunPlan(budget, k, image, plan, n, p).ok && Verifiable(image, plan[i])
    ensures RunPlan(budget, k, image, plan, n, p).stored[i]
  {
    if i < n - 1 {
      RunPlanSound(budget, k, image, plan, n - 1, p, i);
    } else {
      RunAllSound(budget, RunPlan(budget, k, image, plan, n - 1, p).next, Source(image, plan[i]), p);
    }
  }

  /** Death points for the first n - 1 spans, and others for span n - 1 after them. */
  lemma RunPlanJoins(b1: nat -> nat, b2: nat -> nat, k: nat, image: seq<byte>, plan: seq<Span>, n: nat, p: nat)
    returns (budget: nat -> nat)
    requires GoodPlan(plan) && |image| == FLASH_SIZE && 1 <= n <= |plan|
    requires Aligned(|Source(image, plan[n - 1])|) && RunPlan(b1, k, image, plan, n - 1, p).ok
    ensures var front := RunPlan(b1, k, image, plan, n - 1, p);
      var last := RunAll(b2, front.next, Source(image, plan[n - 1]), p);
      RunPlan(budget, k, image, plan, n, p) == Runs(last.ok, last.next, front.stored + [last.stored])
  {
    var next := RunPlan(b1, k, image, plan, n - 1, p).next;
    budget := x => if x < next then b1(x) else b2(x);
    RunPlanLocal(b1, budget, k, image, plan, n - 1, p);
    RunAllLocal(b2, budget, next, Source(image, plan[n - 1]), p);
  }

  /** Death points after which one region returns, stored or, if it has an all-zero
      sector, as wanted not stored. */
  lemma RunAllAsWanted(k: nat, data: seq<byte>, p: nat, stored: bool) returns (budget: nat -> nat)
    requires Aligned(|data|) && (stored || !SectorsNonzero(data))
    ensures RunAll(budget, k, data, p).ok && RunAll(budget, k, data, p).stored == stored
  {
    if stored {
      budget := _ => Plenty(data, p);
      RunAllStores(budget, k, data, p, Plenty(data, p));
    } else {
      budget := RunAllEscapes(k, data, p);
    }
  }

  predicate AllBut(stored: seq<bool>, i: nat)
  {
    forall j :: 0 <= j < |stored| ==> (stored[j] <==> j != i)
  }

  lemma AllButAppend(stored: seq<bool>, i: nat)
    requires AllBut(stored, i)
    ensures AllBut(stored + [|stored| != i], i)
  {
  }

  /** Death points after which the plan returns with every span stored but span i,
      if that has an all-zero sector; i past the plan spares them all. */
  lemma {:induction false} RunPlanEscapes(k: nat, image: seq<byte>, plan: seq<Span>, n: nat, p: nat, i: nat)
    returns (budget: nat -> nat)
    requires GoodPlan(plan) && |image| == FLASH_SIZE && n <= |plan|
    requires i < n ==> !Verifiable(image, plan[i])
    ensures RunPlan(budget, k, image, plan, n, p).ok && AllBut(RunPlan(budget, k, image, plan, n, p).stored, i)
  {
    if n == 0 {
      budget := _ => 0;
    } else {
      var b1 := RunPlanEscapes(k, image, plan, n - 1, p, i);
      budget := EscapesStep(b1, k, image, plan, n, p, i);
    }
  }

  lemma EscapesStep(b1: nat -> nat, k: nat, image: seq<byte>, plan: seq<Span>, n: nat, p: nat, i: nat)
    returns (budget: nat -> nat)
    requires GoodPlan(plan) && |image| == FLASH_SIZE && 1 <= n <= |plan|
    requires i == n - 1 ==> !Verifiable(image, plan[i])
    requires RunPlan(b1, k, image, plan, n - 1, p).ok && AllBut(RunPlan(b1, k, image, plan, n - 1, p).stored, i)
    ensures RunPlan(budget, k, image, plan, n, p).ok && AllBut(RunPlan(budget, k, image, plan, n, p).stored, i)
  {
    SourceAligned(image, plan, n - 1);
    var front := RunPlan(b1, k, image, plan, n - 1, p);
    var b2 := RunAllAsWanted(front.next, Source(image, plan[n - 1]), p, n - 1 != i);
    budget := RunPlanJoins(b1, b2, k, image, plan, n, p);
    AllButAppend(front.stored, i);
  }

  /** Every plan that returns has its first n spans stored, whatever the death points,
      exactly when none of them has an all-zero sector. */
  lemma PlanSoundIff(image: seq<byte>, plan: seq<Span>, n: nat, p: nat)
    requires GoodPlan(plan) && |image| == FLASH_SIZE && n <= |plan|
    ensures (forall budget: nat -> nat, k: nat, i: nat ::
               i < n && RunPlan(budget, k, image, plan, |plan|, p).ok ==>
                 RunPlan(budget, k, image, plan, |plan|, p).stored[i])
            <==> (forall i :: 0 <= i < n ==> Verifiable(image, plan[i]))
  {
    if forall i :: 0 <= i < n ==> Verifiable(image, plan[i]) {
      forall budget: nat -> nat, k: nat, i: nat | i < n && RunPlan(budget, k, image, plan, |plan|, p).ok
        ensures RunPlan(budget, k, image, plan, |plan|, p).stored[i]
      {
        RunPlanSound(budget, k, image, plan, |plan|, p, i);
      }
    } else {
      var i: nat :| i < n && !Verifiable(image, plan[i]);
      var budget := RunPlanEscapes(0, image, plan, |plan|, p, i);
      assert RunPlan(budget, 0, image, plan, |plan|, p).ok && !RunPlan(budget, 0, image, plan, |plan|, p).stored[i];
    }
  }

  /** Which of the first n spans are written. */
  ghost function Flags(m: seq<byte>, image: seq<byte>, plan: seq<Span>, n: nat): (r: seq<bool>)
    requires n <= |plan|
    ensures |r| == n
  {
    seq(n, i requires 0 <= i < n => Written(m, image, plan[i]))
  }

  lemma FlagsStep(mk: seq<byte>, m: seq<byte>, image: seq<byte>, plan: seq<Span>, k: nat, len: nat)
    requires GoodPlan(plan) && k < |plan| && len <= plan[k].size && |image| == FLASH_SIZE && |mk| == FLASH_SIZE
    requires Kept(mk, m, plan[k].off, plan[k].off + len)
    ensures Flags(m, image, plan, k + 1) == Flags(mk, image, plan, k) + [Written(m, image, plan[k])]
  {
    forall i | 0 <= i < k
      ensures Written(m, image, plan[i]) <==> Written(mk, image, plan[i])
    {
      WrittenStays(mk, m, image, plan, i, k, len);
    }
  }

  /** What is seen of the first n spans, in the terms of a run. */
  ghost function SeenPlan(b: Board, image: seq<byte>, plan: seq<Span>, n: nat): Runs
    requires n <= |plan|
  {
    Runs(true, b.begun, Flags(b.chip.mem, image, plan, n))
  }

  /** The outcome of the spans is what the run says. */
  ghost predicate FollowsPlan(w: World, b0: Board, b: Board, image: seq<byte>, plan: seq<Span>, ok: bool)
    requires GoodPlan(plan) && |image| == FLASH_SIZE
  {
    var runs := RunPlan(w.budget, b0.begun, image, plan, |plan|, w.slowest);
    if ok then SeenPlan(b, image, plan, |plan|) == runs else !runs.ok && b.begun == runs.next
  }

  lemma PlanStep(w: World, b0: Board, b: Board, b': Board, image: seq<byte>, plan: seq<Span>, k: nat, len: nat, ok: bool)
    requires GoodPlan(plan) && k < |plan| && len <= plan[k].size && |image| == FLASH_SIZE && b.Valid()
    requires Kept(b.chip.mem, b'.chip.mem, plan[k].off, plan[k].off + len)
    requires Aligned(|Source(image, plan[k])|)
    requires SeenPlan(b, image, plan, k) == RunPlan(w.budget, b0.begun, image, plan, k, w.slowest)
    requires Seen(b', plan[k].off, Source(image, plan[k]), ok)
             == RunAll(w.budget, b.begun, Source(image, plan[k]), w.slowest)
    ensures ok ==> SeenPlan(b', image, plan, k + 1) == RunPlan(w.budget, b0.begun, image, plan, k + 1, w.slowest)
    ensures !ok ==> FollowsPlan(w, b0, b', image, plan, false)
  {
    if ok {
      FlagsStep(b.chip.mem, b'.chip.mem, image, plan, k, len);
    } else {
      RunPlanStops(w.budget, b0.begun, image, plan, k + 1, |plan|, w.slowest);
    }
  }

  lemma CoversAreGood(areas: map<string, Area>)
    requires AllListed(areas) && NoneShare(Covers(areas, |FLASH_ORDER|))
    ensures GoodPlan(Covers(areas, |FLASH_ORDER|))
  {
    var plan := Covers(areas, |FLASH_ORDER|);
    OrderOfCovers(areas, |FLASH_ORDER|);
    forall s | s in plan
      ensures Aligned(s.off) && Aligned(s.size)
    {
      var k :| 0 <= k < |plan| && s == plan[k];
      CoverIsLeast(FLASH_ORDER[k], areas[FLASH_ORDER[k]], 0, 0);
    }
  }

  /** What flash_plan accepts is a good plan. */
  lemma PlanIsGood(image: seq<byte>, r: Result<seq<Span>>)
    requires PlanOutcome(image, r) && r.Ok?
    ensures |image| == FLASH_SIZE && GoodPlan(r.value) && |r.value| == |FLASH_ORDER|
    ensures forall k :: 0 <= k < |FLASH_ORDER| ==> r.value[k].name == FLASH_ORDER[k]
  {
    var found := FmapExists(image);
    PlanRefusedIff(found.value, r);
    CoversAreGood(found.value);
  }

  /** The run over the plan has failed at span k: an exception that is not a FatalError,
      or a minimum-size piece of that span. What comes before it is written. */
  ghost predicate FailedAt(b0: Board, b: Board, image: seq<byte>, plan: seq<Span>, k: nat, e: Error)
  {
    && k < |plan| && PieceError(e, plan[k].off, plan[k].off + |Source(image, plan[k])|)
    && (!b0.chip.Complemented() ==>
          && WrittenUpTo(b.chip.mem, image, plan, k)
          && (Verifiable(image, plan[k]) ==> PrefixStored(b.chip.mem, plan[k].off, Source(image, plan[k]), e)))
  }

  /** What the loop over the plan guarantees, n spans into it or, if r is an error, at its end. */
  ghost predicate SpansOutcome(w: World, b0: Board, b: Board, image: seq<byte>, plan: seq<Span>, n: nat,
                               abortEvery: int, r: Result<()>)
    requires GoodPlan(plan) && |image| == FLASH_SIZE && n <= |plan|
  {
    && Flashed(b0, b, image, plan, n) && b0.clock <= b.clock
    && (r.Ok? && !b0.chip.Complemented() ==> WrittenUpTo(b.chip.mem, image, plan, n))
    && (r.Err? ==> exists k :: FailedAt(b0, b, image, plan, k, r.error))
    && (r == Err(Crash) ==> Crashes(w, b0, abortEvery))
    // Sessions that last one sector are enough.
    && (Lasting(w, b0, abortEvery) ==> r.Ok?)
    // With waits of one length the budgets alone decide.
    && (Calm(w, b0, abortEvery) && Uniform(w, b0) ==>
          if r.Ok? then SeenPlan(b, image, plan, n) == RunPlan(w.budget, b0.begun, image, plan, n, w.slowest)
          else FollowsPlan(w, b0, b, image, plan, false))
  }

  /** One more span. */
  lemma SpanStep(w: World, b0: Board, b: Board, b': Board, image: seq<byte>, plan: seq<Span>, k: nat, abortEvery: int,
                 r: Result<()>, s: Began)
    requires GoodPlan(plan) && |image| == FLASH_SIZE && k < |plan| && b0.Valid() && b.Valid()
    requires SpansOutcome(w, b0, b, image, plan, k, abortEvery, Ok(()))
    requires Aligned(|Source(image, plan[k])|) && |Source(image, plan[k])| <= plan[k].size
    requires RegionOutcome(w, b, b', abortEvery, plan[k].off, Source(image, plan[k]), r, s)
    ensures SpansOutcome(w, b0, b', image, plan, k + 1, abortEvery, r)
  {
    var data := Source(image, plan[k]);
    FlashedStep(b0, b, b', image, plan, k, |data|);
    CalmLater(w, b0, b, abortEvery);
    if r.Err? {
      assert FailedAt(b0, b', image, plan, k, r.error);
    }
    if Calm(w, b0, abortEvery) && Uniform(w, b0) {
      PlanStep(w, b0, b, b', image, plan, k, |data|, r.Ok?);
    }
  }

  /** The regions, one after the other. */
  method FlashSpans(rig: Rig, image: seq<byte>, plan: seq<Span>, abortEvery: int) returns (r: Result<()>)
    requires rig.now.Valid() && |image| == FLASH_SIZE && GoodPlan(plan)
    modifies rig
    ensures SpansOutcome(rig.world, old(rig.now), rig.now, image, plan, |plan|, abortEvery, r)
  {
    ghost var b0, w := rig.now, rig.world;
    for k := 0 to |plan|
      invariant SpansOutcome(w, b0, rig.now, image, plan, k, abortEvery, Ok(()))
    {
      ghost var b := rig.now;
      ghost var began;
      var s := plan[k];
      assert s in plan;
      SourceFits(image, s);
      r, began := FlashRegion(rig, abortEvery, s.off, Source(image, s));
      SpanStep(w, b0, b, rig.now, image, plan, k, abortEvery, r, began);
      if r.Err? {
        FlashedToEnd(b0, rig.now, image, plan, k + 1);
        return;
      }
    }
    return Ok(());
  }

  lemma FlashedToEnd(b0: Board, b: Board, image: seq<byte>, plan: seq<Span>, k: nat)
    requires Flashed(b0, b, image, plan, k) && k <= |plan|
    ensures Flashed(b0, b, image, plan, |plan|)
  {
    forall x: nat
      ensures Planned(plan, k, x) ==> Planned(plan, |plan|, x)
    {
    }
    forall t {:trigger b.hist[t]} | |b0.hist| <= t < |b.hist|
      ensures KeptOutside(b0.chip.mem, b.hist[t], plan, |plan|)
    {
      assert KeptOutside(b0.chip.mem, b.hist[t], plan, k);
    }
  }

  predicate AboveGuard(plan: seq<Span>)
  {
    forall s :: s in plan ==> s.off >= 0x400000
  }

  /** The error names the plan's first region below 4 MiB. */
  ghost predicate NamesReadOnly(e: Error, plan: seq<Span>)
  {
    exists k :: 0 <= k < |plan| && plan[k].off < 0x400000 && e == Fatal(ReadOnlyRegion(plan[k].name))
                && forall j :: 0 <= j < k ==> plan[j].off >= 0x400000
  }

  /** The guard loop: no region below 4 MiB without --allow-ro. */
  method CheckReadOnly(plan: seq<Span>, allowRo: bool) returns (r: Result<()>)
    ensures r.Ok? <==> allowRo || AboveGuard(plan)
    ensures r.Err? ==> NamesReadOnly(r.error, plan)
  {
    for k := 0 to |plan|
      invariant !allowRo ==> forall j :: 0 <= j < k ==> plan[j].off >= RO_GUARD_LIMIT
    {
      if plan[k].off < RO_GUARD_LIMIT && !allowRo {
        return Err(Fatal(ReadOnlyRegion(plan[k].name)));
      }
    }
    return Ok(());
  }

  /** The exit code: 0 unless verify_boot is asked for. */
  function Verdict(boot: Option<Result<string>>): Result<nat>
  {
    match boot
    case None => Ok(0)
    case Some(Err(e)) => Err(e)
    case Some(Ok(text)) => match Boot.Classify(text) case GOOD => Ok(0) case BAD => Ok(2) case UNDECIDED => Ok(3)
  }

  /** ... by the markers in the log: 2 for a bad one, 0 for good ones only, 3 for none. */
  ghost predicate ExitCode(boot: Option<Result<string>>, r: Result<nat>)
  {
    match boot
    case None => r == Ok(0)
    case Some(Err(e)) => r == Err(e)
    case Some(Ok(text)) =>
      && (r == Ok(2) <==> Boot.SaysBad(text))
      && (r == Ok(0) <==> Boot.SaysGood(text) && !Boot.SaysBad(text))
      && (r == Ok(3) <==> !Boot.SaysGood(text) && !Boot.SaysBad(text))
  }

  lemma VerdictIsExitCode(boot: Option<Result<string>>)
    ensures ExitCode(boot, Verdict(boot))
  {
    if boot.Some? && boot.value.Ok? {
      Boot.VerdictByMarkers(boot.value.value);
    }
  }

  /** `cmd_flash`. `boot` is what verify_boot does, if it is asked for: it raises, or it
      captures a boot log. `plan` is what flash_plan returned; `flashed` says that all
      regions were flashed. */
  method CmdFlash(rig: Rig, image: seq<byte>, commit: bool, allowRo: bool, abortEvery: int, boot: Option<Result<string>>)
    returns (r: Result<nat>, plan: Result<seq<Span>>, flashed: bool)
    requires rig.now.Valid()
    modifies rig
    ensures plan.Err? ==> r == Err(plan.error) && rig.now == old(rig.now)
    ensures PlanOutcome(image, plan)
    ensures plan.Ok? ==> GoodPlan(plan.value)
    ensures plan.Ok? ==> |plan.value| == 3 && plan.value[0].name == "RW_SECTION_A"
                         && plan.value[1].name == "RW_SECTION_B" && plan.value[2].name == "GBB"
    // Nothing is touched without --commit, or for a read-only region without --allow-ro.
    ensures plan.Ok? && !commit ==> r == Ok(0) && rig.now == old(rig.now)
    ensures plan.Ok? && commit && !allowRo && !AboveGuard(plan.value) ==>
      r.Err? && NamesReadOnly(r.error, plan.value) && rig.now == old(rig.now)
    // At every moment of every run: only planned bytes change, in the planned order.
    ensures plan.Ok? ==> Flashed(old(rig.now), rig.now, image, plan.value, |plan.value|)
    ensures plan.Ok? && rig.now != old(rig.now) && !allowRo ==> AboveGuard(plan.value)
    // Success means every region holds its part of the image.
    ensures flashed ==> plan.Ok? && commit && ExitCode(boot, r)
    ensures plan.Ok? && commit && !flashed ==> r.Err?
    ensures flashed && !old(rig.now.chip.Complemented()) ==>
      WrittenUpTo(rig.now.chip.mem, image, plan.value, |plan.value|)
    // ... all of it, if the region is inside the chip.
    ensures flashed && !old(rig.now.chip.Complemented()) ==>
      forall s :: s in plan.value && Verifiable(image, s) && s.End() <= FLASH_SIZE ==>
        |image| == FLASH_SIZE && rig.now.chip.mem[s.off..s.End()] == image[s.off..s.End()]
    // How the flashing can fail, the lasting sessions that are enough, and the outcome in a
    // uniform world.
    ensures plan.Ok? && commit && (allowRo || AboveGuard(plan.value)) ==>
      && |image| == FLASH_SIZE
      && exists e: Result<()> :: e.Ok? == flashed && (e.Err? ==> r == Err(e.error))
           && SpansOutcome(rig.world, old(rig.now), rig.now, image, plan.value, |plan.value|, abortEvery, e)
  {
    flashed := false;
    plan := FlashPlan(image);
    if plan.Err? {
      r := Err(plan.error);
      return;
    }
    PlanIsGood(image, plan);
    FlashedNothing(rig.now, image, plan.value);
    if !commit {
      r := Ok(0);
      return;
    }
    var guarded := CheckReadOnly(plan.value, allowRo);
    if guarded.Err? {
      r := Err(guarded.error);
      return;
    }
    var e := FlashSpans(rig, image, plan.value, abortEvery);
    flashed := e.Ok?;
    if flashed && !old(rig.now.chip.Complemented()) {
      WrittenWhole(rig.now.chip.mem, image, plan.value);
    }
    VerdictIsExitCode(boot);
    r := if flashed then Verdict(boot) else Err(e.error);
  }

  /** RO-last: at every moment of a run, failed or not, in which a byte of GBB has
      changed, each RW section without an all-zero sector already holds the image. */
  lemma RoLast(b0: Board, b: Board, image: seq<byte>, plan: seq<Span>, t: nat)
    requires Flashed(b0, b, image, plan, |plan|) && |plan| == |FLASH_ORDER| && GoodPlan(plan)
    requires forall k :: 0 <= k < |FLASH_ORDER| ==> plan[k].name == FLASH_ORDER[k]
    requires |image| == FLASH_SIZE && |b0.hist| <= t < |b.hist| && b0.Valid()
    requires exists gbb :: gbb in plan && gbb.name == "GBB" && Changed(b0.chip.mem, b.hist[t], gbb)
    ensures forall s :: s in plan && s.name != "GBB" && Verifiable(image, s) ==>
      Slice(b.hist[t], s.off, s.End()) == Source(image, s)
  {
    var m := b.hist[t];
    assert InOrder(b0.chip.mem, m, image, plan);
    var gbb :| gbb in plan && gbb.name == "GBB" && Changed(b0.chip.mem, m, gbb);
    var j :| 0 <= j < |plan| && plan[j] == gbb;
    assert FLASH_ORDER[0][0] == 'R' && FLASH_ORDER[1][0] == 'R';
    assert j == 2;
    forall s | s in plan && s.name != "GBB" && Verifiable(image, s)
      ensures Slice(m, s.off, s.End()) == Source(image, s)
    {
      var i :| 0 <= i < |plan| && plan[i] == s;
      assert i < j;
      assert Written(m, image, s);
      WrittenIsSlice(m, image, s);
    }
  }

  lemma WrittenChanges(m0: seq<byte>, m: seq<byte>, image: seq<byte>, s: Span)
    requires |m0| == FLASH_SIZE && |m| == FLASH_SIZE && |image| == FLASH_SIZE
    requires Written(m, image, s) && Slice(m0, s.off, s.End()) != Source(image, s)
    ensures Changed(m0, m, s)
  {
    WrittenIsSlice(m, image, s);
    SameSlice(m0, m, s);
  }

  lemma SameSlice(m0: seq<byte>, m: seq<byte>, s: Span)
    requires |m0| == FLASH_SIZE && |m| == FLASH_SIZE
    ensures !Changed(m0, m, s) ==> Slice(m0, s.off, s.End()) == Slice(m, s.off, s.End())
  {
    if !Changed(m0, m, s) {
      var a, b := Slice(m0, s.off, s.End()), Slice(m, s.off, s.End());
      assert |a| == |b|;
      forall k | 0 <= k < |a|
        ensures a[k] == b[k]
      {
        assert Contains(s, s.off + k);
      }
      assert a == b;
    }
  }

  /** The order fails for every other image: if an earlier span i has an all-zero sector
      and the chip's last span differs from the image's, then in some calm, uniform
      world every run ends with all regions flashed, the last one among them, over an
      unwritten span i. */
  lemma RoLastFails(b0: Board, image: seq<byte>, plan: seq<Span>, i: nat, p: nat, abortEvery: int) returns (w: World)
    requires b0.Valid() && b0.chip.Honours() && p >= 1 && abortEvery != 0
    requires GoodPlan(plan) && |image| == FLASH_SIZE && i < |plan| - 1 && !Verifiable(image, plan[i])
    requires var last := plan[|plan| - 1]; Slice(b0.chip.mem, last.off, last.End()) != Source(image, last)
    ensures Calm(w, b0, abortEvery) && Uniform(w, b0)
    ensures forall b: Board, ok: bool :: b.Valid() && FollowsPlan(w, b0, b, image, plan, ok) ==>
      ok && Changed(b0.chip.mem, b.chip.mem, plan[|plan| - 1]) && !Written(b.chip.mem, image, plan[i])
  {
    var budget := RunPlanEscapes(b0.begun, image, plan, |plan|, p, i);
    w := BudgetsHappen(budget, p, b0, abortEvery);
    forall b: Board, ok: bool | b.Valid() && FollowsPlan(w, b0, b, image, plan, ok)
      ensures ok && Changed(b0.chip.mem, b.chip.mem, plan[|plan| - 1]) && !Written(b.chip.mem, image, plan[i])
    {
      EscapeSeen(w, b0, b, image, plan, i, ok);
      WrittenChanges(b0.chip.mem, b.chip.mem, image, plan[|plan| - 1]);
    }
  }

  /** What is seen after a run that stores every span but span i. */
  lemma EscapeSeen(w: World, b0: Board, b: Board, image: seq<byte>, plan: seq<Span>, i: nat, ok: bool)
    requires GoodPlan(plan) && |image| == FLASH_SIZE && i < |plan| - 1
    requires var runs := RunPlan(w.budget, b0.begun, image, plan, |plan|, w.slowest); runs.ok && AllBut(runs.stored, i)
    requires FollowsPlan(w, b0, b, image, plan, ok)
    ensures ok && Written(b.chip.mem, image, plan[|plan| - 1]) && !Written(b.chip.mem, image, plan[i])
  {
    var flags := Flags(b.chip.mem, image, plan, |plan|);
    assert ok && AllBut(flags, i);
    assert flags[i] == Written(b.chip.mem, image, plan[i]);
    assert flags[|plan| - 1] == Written(b.chip.mem, image, plan[|plan| - 1]);
  }

  lemma WrittenIsSlice(m: seq<byte>, image: seq<byte>, s: Span)
    requires |m| == FLASH_SIZE && |image| == FLASH_SIZE && Written(m, image, s)
    ensures Slice(m, s.off, s.End()) == Source(image, s)
  {
    var a, b := Slice(m, s.off, s.End()), Source(image, s);
    assert |a| == |b|;
    forall k | 0 <= k < |a|
      ensures a[k] == b[k]
    {
      assert m[s.off + k] == b[k];
    }
  }

  /** Without --allow-ro no byte below 4 MiB ever changes. */
  lemma NothingBelowGuard(b0: Board, b: Board, image: seq<byte>, plan: seq<Span>, t: nat, x: nat)
    requires Flashed(b0, b, image, plan, |plan|) && b0.Valid()
    requires AboveGuard(plan)
    requires |b0.hist| <= t < |b.hist| && x < 0x400000
    ensures |b.hist[t]| == FLASH_SIZE && b.hist[t][x] == b0.chip.mem[x] && b.chip.mem[x] == b0.chip.mem[x]
  {
    assert KeptOutside(b0.chip.mem, b.hist[t], plan, |plan|);
    assert !Planned(plan, |plan|, x);
  }

  // ------------------------------------------- an image that reaches past the chip

  function Coded(name: string): (r: seq<byte>)
    requires forall i :: 0 <= i < |name| ==> '\0' < name[i] < '\U{80}'
    ensures |r| == |name| && (forall i :: 0 <= i < |r| ==> r[i] == name[i] as int) && Ascii(r) == name
  {
    var r: seq<byte> := seq(|name|, i requires 0 <= i < |name| => name[i] as int);
    assert forall i :: 0 <= i < |name| ==> Ascii(r)[i] == r[i] as char == name[i];
    r
  }

  function FarEntry(name: string, off: nat): (e: Entry)
    requires forall i :: 0 <= i < |name| ==> '\0' < name[i] < '\U{80}'
    requires |name| <= NAME && off <= 0x800000
    ensures WellFormedEntry(e, 0x1000000) && e.off == off && e.size == 0x1000 && Ascii(e.name) == name
  {
    Entry(Coded(name), off, 0x1000, Zeros(2))
  }

  /** A flash map of 16 MiB, with GBB just past the chip. */
  function FarLayout(): (l: Layout)
    ensures WellFormed(l) && |l.entries| == 3
    ensures forall j :: 0 <= j < 3 ==> Ascii(l.entries[j].name) == FLASH_ORDER[j] && l.entries[j].size == 0x1000
    ensures l.entries[0].off == 0x400000 && l.entries[1].off == 0x500000 && l.entries[2].off == FLASH_SIZE
  {
    var a, b, gbb := FarEntry(FLASH_ORDER[0], 0x400000), FarEntry(FLASH_ORDER[1], 0x500000), FarEntry(FLASH_ORDER[2], FLASH_SIZE);
    assert Ascii(a.name)[0] == 'R' && Ascii(gbb.name)[0] == 'G' && Ascii(b.name)[0] == 'R';
    assert Ascii(a.name)[11] == 'A' && Ascii(b.name)[11] == 'B';
    Layout(Zeros(2), Zeros(8), 0x1000000, Coded("FMAP"), [a, b, gbb])
  }

  lemma FarAreas(areas: map<string, Area>, r: Result<seq<Span>>)
    requires AllListed(areas) && IsPlan(areas, r)
    requires areas[FLASH_ORDER[0]] == Area(0x400000, 0x1000) && areas[FLASH_ORDER[1]] == Area(0x500000, 0x1000)
    requires areas[FLASH_ORDER[2]] == Area(FLASH_SIZE, 0x1000)
    ensures r.Ok? && |r.value| == 3 && r.value[2] == Span("GBB", FLASH_SIZE, 0x1000)
  {
    var spans := Covers(areas, |FLASH_ORDER|);
    assert spans[0].off == 0x400000 && spans[0].End() == 0x401000;
    assert spans[1].off == 0x500000 && spans[1].End() == 0x501000;
    assert spans[2].off == FLASH_SIZE && spans[2].End() == FLASH_SIZE + 0x1000;
    forall a, b | a in spans && b in spans && a != b
      ensures !Share(a, b)
    {
      var i :| 0 <= i < 3 && a == spans[i];
      var j :| 0 <= j < 3 && b == spans[j];
    }
    PlanRefusedIff(areas, r);
  }

  /** A layout at the conventional offset of an otherwise blank image. */
  function FarImage(l: Layout): (image: seq<byte>)
    requires WellFormed(l) && |Encode(l)| <= 0x10000
    ensures |image| == FLASH_SIZE && FMAP_EXPECTED_OFFSET + |Encode(l)| <= |image|
    ensures image[FMAP_EXPECTED_OFFSET..FMAP_EXPECTED_OFFSET + |Encode(l)|] == Encode(l)
  {
    var front, back := Zeros(FMAP_EXPECTED_OFFSET), Zeros(FLASH_SIZE - FMAP_EXPECTED_OFFSET - |Encode(l)|);
    Middle(front, Encode(l), back);
    front + Encode(l) + back
  }

  /** Such an image is accepted, and its GBB is never flashed. */
  lemma PastTheChip() returns (image: seq<byte>)
    ensures |image| == FLASH_SIZE
    ensures forall r :: PlanOutcome(image, r) ==>
      r.Ok? && |r.value| == 3 && r.value[2] == Span("GBB", FLASH_SIZE, 0x1000) && Source(image, r.value[2]) == []
  {
    var l := FarLayout();
    assert |Encode(l)| == HEADER + RECORD * 3;
    image := FarImage(l);
    var found := FmapExists(image);
    FmapRoundTrip(image, l, found);
    FarFound(l, found.value);
    forall r | PlanOutcome(image, r)
      ensures r.Ok? && |r.value| == 3 && r.value[2] == Span("GBB", FLASH_SIZE, 0x1000) && Source(image, r.value[2]) == []
    {
      FarAreas(found.value, r);
      OutsideIsVacuous(image, image, r.value[2]);
    }
  }

  lemma FarFound(l: Layout, areas: map<string, Area>)
    requires l == FarLayout()
    requires forall j :: 0 <= j < |l.entries| ==>
      Ascii(l.entries[j].name) in areas
      && areas[Ascii(l.entries[j].name)] == Area(l.entries[j].off, l.entries[j].size)
    ensures AllListed(areas) && areas[FLASH_ORDER[0]] == Area(0x400000, 0x1000)
    ensures areas[FLASH_ORDER[1]] == Area(0x500000, 0x1000) && areas[FLASH_ORDER[2]] == Area(FLASH_SIZE, 0x1000)
  {
    assert Ascii(l.entries[0].name) == FLASH_ORDER[0] && Ascii(l.entries[1].name) == FLASH_ORDER[1];
    assert Ascii(l.entries[2].name) == FLASH_ORDER[2];
  }

  lemma FlashedNothing(b: Board, image: seq<byte>, plan: seq<Span>)
    requires b.Valid()
    ensures Flashed(b, b, image, plan, |plan|)
  {
  }
}
