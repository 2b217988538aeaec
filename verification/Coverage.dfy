/** Branch coverage from execution traces: the streaming fold over a known branch
    map, the edge-collecting fold, and accumulation over cached partial runs. */
module Coverage {
  import opened Results

  /** A trace line is a program counter, or anything else, which breaks the chain. */
  datatype Line = Pc(pc: nat) | Other

  type Trace = seq<Line>

  datatype Branch = Branch(fall: nat, target: nat)

  type Branches = map<nat, Branch>

  type Edge = (nat, nat)

  // --------------------------------------------------------- what a trace is

  function Pcs(t: Trace): set<nat>
  {
    set i | 0 <= i < |t| && t[i].Pc? :: t[i].pc
  }

  predicate Consecutive(t: Trace, i: nat)
  {
    i + 1 < |t| && t[i].Pc? && t[i + 1].Pc?
  }

  /** Directly consecutive program counters. */
  function Edges(t: Trace): set<Edge>
  {
    set i: nat | i < |t| && Consecutive(t, i) :: (t[i].pc, t[i + 1].pc)
  }

  lemma PcsStep(t: Trace, n: nat)
    requires n < |t|
    ensures Pcs(t[..n + 1]) == Pcs(t[..n]) + if t[n].Pc? then {t[n].pc} else {}
  {
    var longer, shorter := t[..n + 1], t[..n];
    forall p | p in Pcs(longer)
      ensures p in Pcs(shorter) + if t[n].Pc? then {t[n].pc} else {}
    {
      var i :| 0 <= i < |longer| && longer[i].Pc? && longer[i].pc == p;
      if i < n { assert shorter[i] == longer[i]; }
    }
    forall p | p in Pcs(shorter)
      ensures p in Pcs(longer)
    {
      var i :| 0 <= i < |shorter| && shorter[i].Pc? && shorter[i].pc == p;
      assert longer[i] == shorter[i];
    }
    assert longer[n] == t[n];
  }

  /** The edge that line n completes, if any. */
  function EdgeInto(t: Trace, n: nat): set<Edge>
    requires n < |t|
  {
    if n > 0 && t[n - 1].Pc? && t[n].Pc? then {(t[n - 1].pc, t[n].pc)} else {}
  }

  lemma EdgesStep(t: Trace, n: nat)
    requires n < |t|
    ensures Edges(t[..n + 1]) == Edges(t[..n]) + EdgeInto(t, n)
  {
    var longer, shorter := t[..n + 1], t[..n];
    forall e | e in Edges(longer)
      ensures e in Edges(shorter) + EdgeInto(t, n)
    {
      var i: nat :| i < |longer| && Consecutive(longer, i) && e == (longer[i].pc, longer[i + 1].pc);
      if i + 1 < n { assert Consecutive(shorter, i); }
    }
    forall e | e in Edges(shorter)
      ensures e in Edges(longer)
    {
      var i: nat :| i < |shorter| && Consecutive(shorter, i) && e == (shorter[i].pc, shorter[i + 1].pc);
      assert Consecutive(longer, i);
    }
    if EdgeInto(t, n) != {} { assert Consecutive(longer, n - 1); }
  }

  // ----------------------------------------------------- directions by edges

  function Taken(cond: Branches, edges: set<Edge>): set<nat>
  {
    set a | a in cond && (a, cond[a].target) in edges
  }

  function NotTaken(cond: Branches, edges: set<Edge>): set<nat>
  {
    set a | a in cond && (a, cond[a].fall) in edges
  }

  /** Branches that jump to the next instruction. */
  function Degenerate(cond: Branches): set<nat>
  {
    set a | a in cond && cond[a].target == cond[a].fall
  }

  // ------------------------------------------------------------- the folds

  /** The sets that fold_edges mutates. */
  class EdgeLog {
    var executed: set<nat>
    var edges: set<Edge>

    constructor (executed: set<nat>, edges: set<Edge>)
      ensures this.executed == executed && this.edges == edges
    {
      this.executed, this.edges := executed, edges;
    }

    /** `fold_edges`; a trace file may be missing. */
    method FoldEdges(file: Option<Trace>)
      modifies this
      ensures executed == old(executed) + Pcs(file.GetOr([]))
      ensures edges == old(edges) + Edges(file.GetOr([]))
    {
      if file.None? {
        return;
      }
      var t := file.value;
      var prev: Option<nat> := None;
      for n := 0 to |t|
        invariant prev == LastPc(t, n)
        invariant executed == old(executed) + Pcs(t[..n])
        invariant edges == old(edges) + Edges(t[..n])
      {
        PcsStep(t, n);
        EdgesStep(t, n);
        if t[n].Other? {
          prev := None;
        } else {
          var pc := t[n].pc;
          executed := executed + {pc};
          if prev.Some? {
            edges := edges + {(prev.value, pc)};
          }
          prev := Some(pc);
        }
      }
      assert t[..|t|] == t;
    }
  }

  function LastPc(t: Trace, n: nat): Option<nat>
    requires n <= |t|
  {
    if n > 0 && t[n - 1].Pc? then Some(t[n - 1].pc) else None
  }

  /** The branch that line n takes, if it takes one. */
  function TakenInto(cond: Branches, t: Trace, n: nat): set<nat>
    requires n < |t|
  {
    if n > 0 && t[n - 1].Pc? && t[n].Pc? && t[n - 1].pc in cond && t[n].pc == cond[t[n - 1].pc].target
    then {t[n - 1].pc} else {}
  }

  /** ... or falls through, to somewhere else than its target. */
  function NotTakenInto(cond: Branches, t: Trace, n: nat): set<nat>
    requires n < |t|
  {
    if n > 0 && t[n - 1].Pc? && t[n].Pc? && t[n - 1].pc in cond
       && t[n].pc != cond[t[n - 1].pc].target && t[n].pc == cond[t[n - 1].pc].fall
    then {t[n - 1].pc} else {}
  }

  lemma DirectionsStep(cond: Branches, t: Trace, n: nat)
    requires n < |t|
    ensures Taken(cond, Edges(t[..n + 1])) == Taken(cond, Edges(t[..n])) + TakenInto(cond, t, n)
    ensures NotTaken(cond, Edges(t[..n + 1])) - Degenerate(cond)
            == (NotTaken(cond, Edges(t[..n])) - Degenerate(cond)) + NotTakenInto(cond, t, n)
  {
    EdgesStep(t, n);
    DirectionsOfUnion(cond, Edges(t[..n]), EdgeInto(t, n));
    assert Taken(cond, EdgeInto(t, n)) == TakenInto(cond, t, n);
    assert NotTaken(cond, EdgeInto(t, n)) - Degenerate(cond) == NotTakenInto(cond, t, n);
  }

  /** The sets that fold_trace mutates. */
  class DirectionLog {
    const cond: Branches
    var executed: set<nat>
    var taken: set<nat>
    var nottaken: set<nat>

    constructor (cond: Branches)
      ensures this.cond == cond && executed == {} && taken == {} && nottaken == {}
    {
      this.cond := cond;
      executed, taken, nottaken := {}, {}, {};
    }

    /** `fold_trace` */
    method FoldTrace(file: Option<Trace>)
      modifies this
      ensures executed == old(executed) + Pcs(file.GetOr([]))
      ensures taken == old(taken) + Taken(cond, Edges(file.GetOr([])))
      ensures nottaken == old(nottaken) + (NotTaken(cond, Edges(file.GetOr([]))) - Degenerate(cond))
    {
      if file.None? {
        return;
      }
      var t := file.value;
      var prev: Option<nat> := None;
      for n := 0 to |t|
        invariant prev == LastPc(t, n)
        invariant executed == old(executed) + Pcs(t[..n])
        invariant taken == old(taken) + Taken(cond, Edges(t[..n]))
        invariant nottaken == old(nottaken) + (NotTaken(cond, Edges(t[..n])) - Degenerate(cond))
      {
        PcsStep(t, n);
        DirectionsStep(cond, t, n);
        if t[n].Other? {
          prev := None;
        } else {
          var pc := t[n].pc;
          executed := executed + {pc};
          if prev.Some? && prev.value in cond {
            if pc == cond[prev.value].target {
              taken := taken + {prev.value};
            } else if pc == cond[prev.value].fall {
              nottaken := nottaken + {prev.value};
            }
          }
          prev := Some(pc);
        }
      }
      assert t[..|t|] == t;
    }
  }

  // ------------------------------------------------------------ many traces

  datatype Coverage = Coverage(executed: set<nat>, edges: set<Edge>)

  const NONE: Coverage := Coverage({}, {})

  function Join(a: Coverage, b: Coverage): Coverage
  {
    Coverage(a.executed + b.executed, a.edges + b.edges)
  }

  function Of(file: Option<Trace>): Coverage
  {
    Coverage(Pcs(file.GetOr([])), Edges(file.GetOr([])))
  }

  /** The coverage of a list of scenarios' traces. */
  function All(files: seq<Option<Trace>>): Coverage
  {
    if files == [] then NONE else Join(All(files[..|files| - 1]), Of(files[|files| - 1]))
  }

  /** Main's first pass over the scenarios, from the sets it starts with. */
  method CollectEdges(start: Coverage, files: seq<Option<Trace>>) returns (c: Coverage)
    ensures c == Join(start, All(files))
  {
    var log := new EdgeLog(start.executed, start.edges);
    for i := 0 to |files|
      invariant Coverage(log.executed, log.edges) == Join(start, All(files[..i]))
    {
      assert files[..i + 1][..i] == files[..i];
      log.FoldEdges(files[i]);
    }
    assert files[..|files|] == files;
    return Coverage(log.executed, log.edges);
  }

  lemma DirectionsOfUnion(cond: Branches, a: set<Edge>, b: set<Edge>)
    ensures Taken(cond, a + b) == Taken(cond, a) + Taken(cond, b)
    ensures NotTaken(cond, a + b) == NotTaken(cond, a) + NotTaken(cond, b)
  {
  }

  /** The streaming algorithm over the same files computes the directions that edge
      membership defines, except that it never reports the fall-through of a branch
      whose target is its fall-through. */
  method StreamDirections(cond: Branches, files: seq<Option<Trace>>)
    returns (executed: set<nat>, taken: set<nat>, nottaken: set<nat>)
    ensures executed == All(files).executed
    ensures taken == Taken(cond, All(files).edges)
    ensures nottaken == NotTaken(cond, All(files).edges) - Degenerate(cond)
  {
    var log := new DirectionLog(cond);
    for i := 0 to |files|
      invariant log.cond == cond && log.executed == All(files[..i]).executed
      invariant log.taken == Taken(cond, All(files[..i]).edges)
      invariant log.nottaken == NotTaken(cond, All(files[..i]).edges) - Degenerate(cond)
    {
      assert files[..i + 1][..i] == files[..i];
      DirectionsOfUnion(cond, All(files[..i]).edges, Edges(files[i].GetOr([])));
      log.FoldTrace(files[i]);
    }
    assert files[..|files|] == files;
    return log.executed, log.taken, log.nottaken;
  }

  /** So the two algorithms agree exactly when no such branch was executed into its successor. */
  lemma StreamAgreesIff(cond: Branches, edges: set<Edge>)
    ensures NotTaken(cond, edges) - Degenerate(cond) == NotTaken(cond, edges)
            <==> forall a :: a in cond && cond[a].target == cond[a].fall ==> (a, cond[a].fall) !in edges
  {
    if NotTaken(cond, edges) - Degenerate(cond) == NotTaken(cond, edges) {
      forall a | a in cond && cond[a].target == cond[a].fall
        ensures (a, cond[a].fall) !in edges
      {
        assert a in Degenerate(cond);
        assert a !in NotTaken(cond, edges);
      }
    }
  }

  // --------------------------------------------------- cached partial runs

  /** One invocation: with a cache, --reuse runs take it as it is and --only runs start
      from it; full runs start afresh. */
  datatype Invocation = Invocation(reuse: bool, only: bool, files: seq<Option<Trace>>)

  /** A reused cache is taken as it is. Any other run saves what its own traces show and,
      with --only, what the cache holds; a full run keeps nothing of the cache. */
  method RunMain(cache: Option<Coverage>, run: Invocation) returns (saved: Coverage)
    ensures saved == Saved(cache, run)
    ensures run.reuse && cache.Some? ==> saved == cache.value
    ensures !(run.reuse && cache.Some?) ==>
      && (forall p :: p in saved.executed <==>
            (run.only && cache.Some? && p in cache.value.executed) || exists f :: f in run.files && Shows(f, p))
      && (forall e :: e in saved.edges <==>
            (run.only && cache.Some? && e in cache.value.edges) || exists f :: f in run.files && ShowsEdge(f, e))
  {
    if run.reuse && cache.Some? {
      return cache.value;
    }
    var start := if run.only && cache.Some? then cache.value else NONE;
    saved := CollectEdges(start, run.files);
    AllContains(run.files);
  }

  function Saved(cache: Option<Coverage>, run: Invocation): Coverage
  {
    if run.reuse && cache.Some? then cache.value
    else Join(if run.only && cache.Some? then cache.value else NONE, All(run.files))
  }

  /** The cache after a list of invocations. */
  function Cache(runs: seq<Invocation>): Option<Coverage>
  {
    if runs == [] then None
    else Some(Saved(Cache(runs[..|runs| - 1]), runs[|runs| - 1]))
  }

  /** The trace has the program counter on some line. */
  predicate Shows(file: Option<Trace>, pc: nat)
  {
    file.Some? && Pc(pc) in file.value
  }

  /** ... the two program counters on two lines, one after the other. */
  predicate ShowsEdge(file: Option<Trace>, e: Edge)
  {
    file.Some? && exists i :: 0 <= i < |file.value| - 1 && file.value[i] == Pc(e.0) && file.value[i + 1] == Pc(e.1)
  }

  lemma OfShows(file: Option<Trace>)
    ensures forall p :: p in Of(file).executed <==> Shows(file, p)
    ensures forall e :: e in Of(file).edges <==> ShowsEdge(file, e)
  {
    var t := file.GetOr([]);
    forall e | e in Edges(t)
      ensures ShowsEdge(file, e)
    {
      var i: nat :| i < |t| && Consecutive(t, i) && e == (t[i].pc, t[i + 1].pc);
    }
    forall e | ShowsEdge(file, e)
      ensures e in Edges(t)
    {
      var i :| 0 <= i < |t| - 1 && t[i] == Pc(e.0) && t[i + 1] == Pc(e.1);
      assert Consecutive(t, i);
    }
  }

  /** Run i folds its traces: the first one does, whatever it was asked for. */
  predicate Folds(runs: seq<Invocation>, i: int)
  {
    0 <= i < |runs| && (i == 0 || !runs[i].reuse)
  }

  /** ... and no later run starts afresh. */
  ghost predicate Lives(runs: seq<Invocation>, i: int)
  {
    Folds(runs, i) && forall j :: i < j < |runs| ==> runs[j].only || runs[j].reuse
  }

  ghost predicate HasFile(runs: seq<Invocation>, f: Option<Trace>)
  {
    exists i :: Lives(runs, i) && f in runs[i].files
  }

  lemma {:induction false} AllContains(files: seq<Option<Trace>>)
    ensures forall p :: p in All(files).executed <==> exists f :: f in files && Shows(f, p)
    ensures forall e :: e in All(files).edges <==> exists f :: f in files && ShowsEdge(f, e)
  {
    if files != [] {
      var n := |files| - 1;
      AllContains(files[..n]);
      OfShows(files[n]);
      assert files == files[..n] + [files[n]];
      forall f
        ensures f in files <==> f in files[..n] || f == files[n]
      {
      }
    }
  }

  lemma LivesStep(runs: seq<Invocation>, i: nat)
    requires i < |runs| - 1
    ensures var n := |runs| - 1;
      Lives(runs, i) <==> Lives(runs[..n], i) && (runs[n].only || runs[n].reuse)
  {
    var n := |runs| - 1;
    assert runs[..n][i] == runs[i];
    if Lives(runs[..n], i) && (runs[n].only || runs[n].reuse) {
      forall j | i < j < |runs|
        ensures runs[j].only || runs[j].reuse
      {
        if j < n { assert runs[..n][j] == runs[j]; }
      }
    }
  }

  lemma FileStep(runs: seq<Invocation>, f: Option<Trace>)
    requires |runs| >= 2
    ensures var n := |runs| - 1;
      HasFile(runs, f) <==>
        (HasFile(runs[..n], f) && (runs[n].only || runs[n].reuse)) || (!runs[n].reuse && f in runs[n].files)
  {
    var n := |runs| - 1;
    if HasFile(runs, f) {
      var i :| Lives(runs, i) && f in runs[i].files;
      if i < n {
        LivesStep(runs, i);
        assert f in runs[..n][i].files;
      }
    }
    if HasFile(runs[..n], f) && (runs[n].only || runs[n].reuse) {
      var i :| Lives(runs[..n], i) && f in runs[..n][i].files;
      LivesStep(runs, i);
      assert f in runs[i].files;
    }
    if !runs[n].reuse && f in runs[n].files {
      assert Lives(runs, n);
    }
  }

  /** What the cache holds after any runs: what the traces show since the last run that
      started afresh. */
  lemma {:induction false} CacheContains(runs: seq<Invocation>)
    requires runs != []
    ensures forall p :: p in Cache(runs).value.executed <==> exists f :: HasFile(runs, f) && Shows(f, p)
    ensures forall e :: e in Cache(runs).value.edges <==> exists f :: HasFile(runs, f) && ShowsEdge(f, e)
  {
    var n := |runs| - 1;
    AllContains(runs[n].files);
    if n == 0 {
      assert Cache(runs[..n]) == None;
      forall f
        ensures HasFile(runs, f) <==> f in runs[n].files
      {
        assert Lives(runs, 0);
      }
    } else {
      CacheContains(runs[..n]);
      forall f
        ensures HasFile(runs, f) <==>
          (HasFile(runs[..n], f) && (runs[n].only || runs[n].reuse)) || (!runs[n].reuse && f in runs[n].files)
      {
        FileStep(runs, f);
      }
    }
  }

  /** Two ways to run the same scenarios, in any order, split in any way, and with
      any repetitions, leave the same cache, whatever was run before they started afresh. */
  lemma SplitIndependent(runs: seq<Invocation>, runs': seq<Invocation>)
    requires runs != [] && runs' != []
    requires forall f :: HasFile(runs, f) <==> HasFile(runs', f)
    ensures Cache(runs) == Cache(runs')
  {
    CacheContains(runs);
    CacheContains(runs');
    var c, c' := Cache(runs).value, Cache(runs').value;
    assert c.executed == c'.executed;
    assert c.edges == c'.edges;
  }

  // --------------------------------------------------------- classification

  /** Both ends of every edge were executed. */
  ghost predicate Closed(c: Coverage)
  {
    forall e :: e in c.edges ==> e.0 in c.executed && e.1 in c.executed
  }

  lemma TraceClosed(file: Option<Trace>)
    ensures Closed(Of(file))
  {
    var t := file.GetOr([]);
    forall e | e in Edges(t)
      ensures e.0 in Pcs(t) && e.1 in Pcs(t)
    {
      var i: nat :| i < |t| && Consecutive(t, i) && e == (t[i].pc, t[i + 1].pc);
    }
  }

  lemma {:induction false} AllClosed(files: seq<Option<Trace>>)
    ensures Closed(All(files))
  {
    if files != [] {
      AllClosed(files[..|files| - 1]);
      TraceClosed(files[|files| - 1]);
    }
  }

  /** Every cache is closed, whatever invocations made it. */
  lemma {:induction false} CacheClosed(runs: seq<Invocation>)
    ensures runs != [] ==> Closed(Cache(runs).value)
  {
    if runs != [] {
      CacheClosed(runs[..|runs| - 1]);
      AllClosed(runs[|runs| - 1].files);
    }
  }

  /** combine_coverage: the union of all sources' caches; a missing one is empty. */
  function Combined(sources: seq<Option<Coverage>>): Coverage
  {
    if sources == [] then NONE
    else Join(Combined(sources[..|sources| - 1]), sources[|sources| - 1].GetOr(NONE))
  }

  lemma {:induction false} CombinedClosed(sources: seq<Option<Coverage>>)
    requires forall i :: 0 <= i < |sources| && sources[i].Some? ==> Closed(sources[i].value)
    ensures Closed(Combined(sources))
  {
    if sources != [] {
      CombinedClosed(sources[..|sources| - 1]);
    }
  }

  /** Some source has it. */
  ghost predicate SomeExecuted(sources: seq<Option<Coverage>>, p: nat)
  {
    exists i :: 0 <= i < |sources| && sources[i].Some? && p in sources[i].value.executed
  }

  ghost predicate SomeEdge(sources: seq<Option<Coverage>>, e: Edge)
  {
    exists i :: 0 <= i < |sources| && sources[i].Some? && e in sources[i].value.edges
  }

  lemma {:induction false} CombinedContains(sources: seq<Option<Coverage>>)
    ensures forall p :: p in Combined(sources).executed <==> SomeExecuted(sources, p)
    ensures forall e :: e in Combined(sources).edges <==> SomeEdge(sources, e)
  {
    if sources != [] {
      var n := |sources| - 1;
      CombinedContains(sources[..n]);
      forall p
        ensures SomeExecuted(sources, p) <==>
          SomeExecuted(sources[..n], p) || (sources[n].Some? && p in sources[n].value.executed)
      {
        if SomeExecuted(sources[..n], p) {
          var i :| 0 <= i < n && sources[..n][i].Some? && p in sources[..n][i].value.executed;
          assert sources[i] == sources[..n][i];
        }
        if SomeExecuted(sources, p) {
          var i :| 0 <= i <= n && sources[i].Some? && p in sources[i].value.executed;
          if i < n { assert sources[..n][i] == sources[i]; }
        }
      }
      forall e
        ensures SomeEdge(sources, e) <==>
          SomeEdge(sources[..n], e) || (sources[n].Some? && e in sources[n].value.edges)
      {
        if SomeEdge(sources[..n], e) {
          var i :| 0 <= i < n && sources[..n][i].Some? && e in sources[..n][i].value.edges;
          assert sources[i] == sources[..n][i];
        }
        if SomeEdge(sources, e) {
          var i :| 0 <= i <= n && sources[i].Some? && e in sources[i].value.edges;
          if i < n { assert sources[..n][i] == sources[i]; }
        }
      }
    }
  }

  datatype State = Covered | TakenOnly | NotTakenOnly | Unreached | Unknown

  /** The state of a branch, by the order of the report's tests. */
  function StateOf(cond: Branches, c: Coverage, a: nat): State
  {
    if a in Taken(cond, c.edges) && a in NotTaken(cond, c.edges) then Covered
    else if a !in c.executed then Unreached
    else if a in Taken(cond, c.edges) then TakenOnly
    else if a in NotTaken(cond, c.edges) then NotTakenOnly
    else Unknown
  }

  /** In closed coverage the states say what their names say, whatever the order of
      the tests: nothing that was observed is called unreached. */
  lemma StatesExact(cond: Branches, c: Coverage, a: nat)
    requires Closed(c) && a in cond
    ensures var t, n := (a, cond[a].target) in c.edges, (a, cond[a].fall) in c.edges;
      match StateOf(cond, c, a)
      case Covered => t && n && a in c.executed
      case TakenOnly => t && !n && a in c.executed
      case NotTakenOnly => !t && n && a in c.executed
      case Unknown => !t && !n && a in c.executed
      case Unreached => !t && !n && a !in c.executed
  {
  }

  function Both(cond: Branches, edges: set<Edge>): set<nat>
  {
    Taken(cond, edges) * NotTaken(cond, edges)
  }

  /** A branch counts in the combined report exactly if one source saw it jump and one, the
      same or another, saw it fall through. */
  lemma BothIff(cond: Branches, sources: seq<Option<Coverage>>, a: nat)
    requires a in cond
    ensures a in Both(cond, Combined(sources).edges)
            <==> SomeEdge(sources, (a, cond[a].target)) && SomeEdge(sources, (a, cond[a].fall))
  {
    CombinedContains(sources);
  }

  /** Every source's own count is at most the combined one, so what the other
      sources add to it is never negative. */
  lemma {:induction false} CombinedCoversMore(cond: Branches, sources: seq<Option<Coverage>>, i: nat)
    requires i < |sources|
    ensures Both(cond, sources[i].GetOr(NONE).edges) <= Both(cond, Combined(sources).edges)
    ensures |Both(cond, sources[i].GetOr(NONE).edges)| <= |Both(cond, Combined(sources).edges)|
  {
    var n := |sources| - 1;
    if i < n {
      CombinedCoversMore(cond, sources[..n], i);
    }
    DirectionsOfUnion(cond, Combined(sources[..n]).edges, sources[n].GetOr(NONE).edges);
    Smaller(Both(cond, sources[i].GetOr(NONE).edges), Both(cond, Combined(sources).edges));
  }

  lemma Smaller(a: set<nat>, b: set<nat>)
    requires a <= b
    ensures |a| <= |b|
  {
    assert b == a + (b - a);
    assert a !! (b - a);
  }
}
