/** `flash_plan`: the regions of an image, rounded to sectors, in RO-last order. */
module Plan {
  import opened Results
  import opened Bytes
  import opened Nor
  import opened Fmap

  const FLASH_ORDER: seq<string> := ["RW_SECTION_A", "RW_SECTION_B", "GBB"]

  datatype Span = Span(name: string, off: nat, size: nat)
  {
    function End(): nat { off + size }
  }

  /** x & ~(SECTOR_SIZE - 1) */
  function Down(x: nat): nat { x - x % SECTOR_SIZE }

  function Up(x: nat): nat { Down(x + SECTOR_SIZE - 1) }

  function Cover(name: string, a: Area): Span
  {
    Span(name, Down(a.off), Up(a.off + a.size) - Down(a.off))
  }

  lemma DownIsGreatest(x: nat, y: nat)
    ensures Down(x) <= x && Aligned(Down(x))
    ensures Aligned(y) && y <= x ==> y <= Down(x)
  {
    assert Down(x) == SECTOR_SIZE * (x / SECTOR_SIZE);
    if Aligned(y) {
      assert y == SECTOR_SIZE * (y / SECTOR_SIZE);
    }
  }

  lemma UpIsLeast(x: nat, y: nat)
    ensures x <= Up(x) && Aligned(Up(x))
    ensures Aligned(y) && x <= y ==> Up(x) <= y
  {
    DownIsGreatest(x + SECTOR_SIZE - 1, 0);
    if Aligned(y) {
      assert y == SECTOR_SIZE * (y / SECTOR_SIZE);
      assert Up(x) == SECTOR_SIZE * ((x + SECTOR_SIZE - 1) / SECTOR_SIZE);
    }
  }

  /** The span is the least 4 KiB-aligned cover of the area. */
  lemma CoverIsLeast(name: string, a: Area, lo: nat, hi: nat)
    ensures var c := Cover(name, a);
      && Aligned(c.off) && Aligned(c.size)
      && c.off <= a.off && a.off + a.size <= c.End()
      && (Aligned(lo) && Aligned(hi) && lo <= a.off && a.off + a.size <= hi ==>
            lo <= c.off && c.End() <= hi)
      && (a.size > 0 ==> c.size > 0)
  {
    DownIsGreatest(a.off, lo);
    UpIsLeast(a.off + a.size, hi);
    UpIsLeast(a.off + a.size, Down(a.off));
    Difference(Up(a.off + a.size), Down(a.off));
  }

  lemma Difference(x: nat, y: nat)
    requires Aligned(x) && Aligned(y) && y <= x
    ensures Aligned(x - y)
  {
    assert x - y == SECTOR_SIZE * (x / SECTOR_SIZE - y / SECTOR_SIZE);
  }

  // --------------------------------------------------------------- sorting

  /** A stable insertion into a list sorted by `key`. */
  function Insert(s: seq<Span>, x: Span, key: Span -> nat): seq<Span>
  {
    if s == [] || key(s[|s| - 1]) <= key(x) then s + [x]
    else Insert(s[..|s| - 1], x, key) + [s[|s| - 1]]
  }

  /** `list.sort(key=...)` */
  function SortBy(s: seq<Span>, key: Span -> nat): seq<Span>
  {
    if s == [] then [] else Insert(SortBy(s[..|s| - 1], key), s[|s| - 1], key)
  }

  ghost predicate Sorted(s: seq<Span>, key: Span -> nat)
  {
    forall i, j :: 0 <= i < j < |s| ==> key(s[i]) <= key(s[j])
  }

  lemma {:induction false} InsertKeeps(s: seq<Span>, x: Span, key: Span -> nat)
    ensures multiset(Insert(s, x, key)) == multiset(s) + multiset{x} && |Insert(s, x, key)| == |s| + 1
  {
    if s != [] && key(s[|s| - 1]) > key(x) {
      InsertKeeps(s[..|s| - 1], x, key);
      assert s == s[..|s| - 1] + [s[|s| - 1]];
    }
  }

  lemma SortedAppend(s: seq<Span>, x: Span, key: Span -> nat)
    requires Sorted(s, key) && forall y :: y in s ==> key(y) <= key(x)
    ensures Sorted(s + [x], key)
  {
  }

  lemma {:induction false} InsertSorts(s: seq<Span>, x: Span, key: Span -> nat)
    requires Sorted(s, key)
    ensures Sorted(Insert(s, x, key), key)
    ensures forall y :: y in Insert(s, x, key) ==> y in s || y == x
  {
    if s == [] || key(s[|s| - 1]) <= key(x) {
      SortedAppend(s, x, key);
    } else {
      var n := |s| - 1;
      InsertSorts(s[..n], x, key);
      SortedAppend(Insert(s[..n], x, key), s[n], key);
    }
  }

  lemma {:induction false} SortBySorts(s: seq<Span>, key: Span -> nat)
    ensures Sorted(SortBy(s, key), key) && multiset(SortBy(s, key)) == multiset(s)
    ensures |SortBy(s, key)| == |s|
  {
    if s != [] {
      var n := |s| - 1;
      SortBySorts(s[..n], key);
      InsertSorts(SortBy(s[..n], key), s[n], key);
      InsertKeeps(SortBy(s[..n], key), s[n], key);
      assert s == s[..n] + [s[n]];
    }
  }

  ghost predicate StrictlySorted(s: seq<Span>, key: Span -> nat)
  {
    forall i, j :: 0 <= i < j < |s| ==> key(s[i]) < key(s[j])
  }

  lemma SameLength(s: seq<Span>, t: seq<Span>)
    requires multiset(s) == multiset(t)
    ensures |s| == |t|
  {
    assert |multiset(s)| == |s| && |multiset(t)| == |t|;
  }

  lemma LastAgrees(s: seq<Span>, t: seq<Span>, key: Span -> nat)
    requires StrictlySorted(s, key) && Sorted(t, key) && multiset(s) == multiset(t) && s != [] && |s| == |t|
    ensures s[|s| - 1] == t[|t| - 1]
  {
    var n := |s| - 1;
    assert s[n] in multiset(t) && t[n] in multiset(s);
    var i :| 0 <= i < |t| && t[i] == s[n];
    var j :| 0 <= j < |s| && s[j] == t[n];
    assert i < n ==> key(t[i]) <= key(t[n]);
    assert j < n ==> key(s[j]) < key(s[n]);
  }

  /** A list with distinct keys has one sorted arrangement. */
  lemma {:induction false} SortedUnique(s: seq<Span>, t: seq<Span>, key: Span -> nat)
    requires StrictlySorted(s, key) && Sorted(t, key) && multiset(s) == multiset(t)
    ensures s == t
    decreases |s|
  {
    SameLength(s, t);
    if s != [] {
      var n := |s| - 1;
      LastAgrees(s, t, key);
      Fronts(s, t);
      FrontSorted(s, t, key);
      SortedUnique(s[..n], t[..n], key);
      Rejoin(s, t);
    }
  }

  lemma Fronts(s: seq<Span>, t: seq<Span>)
    requires multiset(s) == multiset(t) && s != [] && t != [] && s[|s| - 1] == t[|t| - 1]
    ensures multiset(s[..|s| - 1]) == multiset(t[..|t| - 1])
  {
    Front(s);
    Front(t);
  }

  lemma Rejoin(s: seq<Span>, t: seq<Span>)
    requires s != [] && t != [] && s[..|s| - 1] == t[..|t| - 1] && s[|s| - 1] == t[|t| - 1]
    ensures s == t
  {
    assert s == s[..|s| - 1] + [s[|s| - 1]] && t == t[..|t| - 1] + [t[|t| - 1]];
  }

  lemma Front(s: seq<Span>)
    requires s != []
    ensures multiset(s[..|s| - 1]) == multiset(s) - multiset{s[|s| - 1]}
  {
    assert s == s[..|s| - 1] + [s[|s| - 1]];
  }

  lemma FrontSorted(s: seq<Span>, t: seq<Span>, key: Span -> nat)
    requires StrictlySorted(s, key) && Sorted(t, key) && s != [] && t != []
    ensures StrictlySorted(s[..|s| - 1], key) && Sorted(t[..|t| - 1], key)
  {
  }

  function Offset(s: Span): nat { s.off }

  // --------------------------------------------------------------- overlap

  predicate Contains(s: Span, x: nat)
  {
    s.off <= x < s.End()
  }

  /** Two spans have a byte in common. */
  ghost predicate Share(a: Span, b: Span)
  {
    exists x: nat :: Contains(a, x) && Contains(b, x)
  }

  ghost predicate NoneShare(plan: seq<Span>)
  {
    forall a, b :: a in plan && b in plan && a != b ==> !Share(a, b)
  }

  predicate AdjacentApart(sorted: seq<Span>)
  {
    forall i :: 0 <= i < |sorted| - 1 ==> sorted[i].End() <= sorted[i + 1].off
  }

  /** Checking neighbours in offset order is enough for all pairs. */
  lemma {:induction false} NeighboursSuffice(s: seq<Span>, i: nat, j: nat)
    requires AdjacentApart(s) && i < j < |s|
    ensures s[i].End() <= s[j].off
    decreases j
  {
    if i + 1 < j {
      NeighboursSuffice(s, i, j - 1);
    }
  }

  lemma SameElements(s: seq<Span>, t: seq<Span>, x: Span)
    requires multiset(s) == multiset(t)
    ensures x in s <==> x in t
  {
    assert x in s <==> x in multiset(s);
    assert x in t <==> x in multiset(t);
  }

  /** The neighbour test on the sorted list says that no two spans share a byte;
      for nonempty spans it says no more than that. */
  lemma OverlapTest(plan: seq<Span>, sorted: seq<Span>)
    requires multiset(sorted) == multiset(plan) && Sorted(sorted, Offset)
    requires forall i, j :: 0 <= i < j < |sorted| ==> sorted[i] != sorted[j]
    ensures AdjacentApart(sorted) ==> NoneShare(plan)
    ensures NoneShare(plan) && (forall s :: s in plan ==> s.size > 0) ==> AdjacentApart(sorted)
  {
    if AdjacentApart(sorted) {
      forall a, b | a in plan && b in plan && a != b
        ensures !Share(a, b)
      {
        SameElements(plan, sorted, a);
        SameElements(plan, sorted, b);
        var i :| 0 <= i < |sorted| && sorted[i] == a;
        var j :| 0 <= j < |sorted| && sorted[j] == b;
        if i < j { NeighboursSuffice(sorted, i, j); } else { NeighboursSuffice(sorted, j, i); }
      }
    }
    if NoneShare(plan) && (forall s :: s in plan ==> s.size > 0) {
      forall i | 0 <= i < |sorted| - 1
        ensures sorted[i].End() <= sorted[i + 1].off
      {
        var a, b := sorted[i], sorted[i + 1];
        SameElements(plan, sorted, a);
        SameElements(plan, sorted, b);
        assert !Share(a, b);
        assert Contains(b, b.off) && (a.off <= b.off);
        assert Contains(a, b.off) ==> Share(a, b);
      }
    }
  }

  // ------------------------------------------------------------- flash_plan

  /** The position of a name in FLASH_ORDER. */
  function Order(s: Span): nat
  {
    if s.name == FLASH_ORDER[0] then 0 else if s.name == FLASH_ORDER[1] then 1
    else if s.name == FLASH_ORDER[2] then 2 else 3
  }

  /** The covers of the first n regions of FLASH_ORDER. */
  function Covers(areas: map<string, Area>, n: nat): (plan: seq<Span>)
    requires n <= |FLASH_ORDER| && forall k :: 0 <= k < n ==> FLASH_ORDER[k] in areas
    ensures |plan| == n
    ensures forall k :: 0 <= k < n ==> plan[k] == Cover(FLASH_ORDER[k], areas[FLASH_ORDER[k]])
  {
    if n == 0 then [] else Covers(areas, n - 1) + [Cover(FLASH_ORDER[n - 1], areas[FLASH_ORDER[n - 1]])]
  }

  ghost predicate AllListed(areas: map<string, Area>)
  {
    forall k :: 0 <= k < |FLASH_ORDER| ==> FLASH_ORDER[k] in areas
  }

  lemma OrderOfCovers(areas: map<string, Area>, n: nat)
    requires n <= |FLASH_ORDER| && forall k :: 0 <= k < n ==> FLASH_ORDER[k] in areas
    ensures forall k :: 0 <= k < n ==> Order(Covers(areas, n)[k]) == k
  {
    assert FLASH_ORDER[0][0] == 'R' && FLASH_ORDER[2][0] == 'G';
    assert FLASH_ORDER[0][11] == 'A' && FLASH_ORDER[1][11] == 'B';
  }

  /** Span i is the first, in offset order, that starts before its predecessor's end. */
  ghost predicate FirstOverlap(sorted: seq<Span>, i: int)
  {
    && 1 <= i < |sorted| && sorted[i - 1].End() > sorted[i].off
    && forall j :: 0 <= j < i - 1 ==> sorted[j].End() <= sorted[j + 1].off
  }

  /** What the plan of an image with these areas must be: the covers in FLASH_ORDER,
      unless a region is missing or neighbours in offset order overlap. */
  ghost predicate IsPlan(areas: map<string, Area>, r: Result<seq<Span>>)
  {
    if !AllListed(areas) then
      exists k :: 0 <= k < |FLASH_ORDER| && FLASH_ORDER[k] !in areas
                  && (forall j :: 0 <= j < k ==> FLASH_ORDER[j] in areas)
                  && r == Err(Fatal(MissingRegion(FLASH_ORDER[k])))
    else
      var spans := Covers(areas, |FLASH_ORDER|);
      match r
      case Ok(plan) => plan == spans && AdjacentApart(SortBy(spans, Offset))
      case Err(e) => exists i :: FirstOverlap(SortBy(spans, Offset), i)
                                 && e == Fatal(Overlap(SortBy(spans, Offset)[i].name))
  }

  /** What flash_plan must answer for an image. */
  ghost predicate PlanOutcome(image: seq<byte>, r: Result<seq<Span>>)
  {
    if |image| != FLASH_SIZE then r == Err(Fatal(BadImageSize))
    else forall found :: IsFmap(image, found) ==>
      match found case None => r == Err(Fatal(NoFmap)) case Some(areas) => IsPlan(areas, r)
  }

  /** `flash_plan` */
  method FlashPlan(image: seq<byte>) returns (r: Result<seq<Span>>)
    ensures PlanOutcome(image, r)
  {
    if |image| != FLASH_SIZE {
      return Err(Fatal(BadImageSize));
    }
    var found := ParseFmap(image);
    forall map' | IsFmap(image, map')
      ensures map' == found
    {
      FmapUnique(image, found, map');
    }
    if found.None? {
      return Err(Fatal(NoFmap));
    }
    r := PlanOf(found.value);
  }

  /** The first loop: the rounded span of each region, in FLASH_ORDER. */
  method RoundedSpans(areas: map<string, Area>) returns (r: Result<seq<Span>>)
    ensures r.Ok? ==> AllListed(areas) && r.value == Covers(areas, |FLASH_ORDER|)
    ensures r.Err? ==> !AllListed(areas) && IsPlan(areas, r)
  {
    var plan: seq<Span> := [];
    for k := 0 to |FLASH_ORDER|
      invariant forall j :: 0 <= j < k ==> FLASH_ORDER[j] in areas
      invariant plan == Covers(areas, k)
    {
      var name := FLASH_ORDER[k];
      if name !in areas {
        return Err(Fatal(MissingRegion(name)));
      }
      plan := plan + [Cover(name, areas[name])];
    }
    return Ok(plan);
  }

  /** The second loop: the first span that starts before its predecessor's end. */
  method FindOverlap(sorted: seq<Span>) returns (r: Option<Span>)
    ensures r == None <==> AdjacentApart(sorted)
    ensures r.Some? ==> exists i :: FirstOverlap(sorted, i) && r.value == sorted[i]
  {
    var i := 1;
    while i < |sorted|
      invariant 1 <= i
      invariant forall j :: 0 <= j < i - 1 && j + 1 < |sorted| ==> sorted[j].End() <= sorted[j + 1].off
    {
      if sorted[i - 1].End() > sorted[i].off {
        assert FirstOverlap(sorted, i);
        return Some(sorted[i]);
      }
      i := i + 1;
    }
    return None;
  }

  /** The plan from the map's dictionary. */
  method PlanOf(areas: map<string, Area>) returns (r: Result<seq<Span>>)
    ensures IsPlan(areas, r)
  {
    var plan :- RoundedSpans(areas);
    SortBySorts(plan, Offset);
    plan := SortBy(plan, Offset);
    var overlap := FindOverlap(plan);
    if overlap.Some? {
      return Err(Fatal(Overlap(overlap.value.name)));
    }
    OrderRestored(areas, plan);
    return Ok(SortBy(plan, Order));
  }

  /** Sorting by position in FLASH_ORDER undoes any rearrangement of the plan. */
  lemma OrderRestored(areas: map<string, Area>, shuffled: seq<Span>)
    requires AllListed(areas) && multiset(shuffled) == multiset(Covers(areas, |FLASH_ORDER|))
    ensures SortBy(shuffled, Order) == Covers(areas, |FLASH_ORDER|)
  {
    OrderOfCovers(areas, |FLASH_ORDER|);
    SortBySorts(shuffled, Order);
    SortedUnique(Covers(areas, |FLASH_ORDER|), SortBy(shuffled, Order), Order);
  }

  lemma DistinctStays(s: seq<Span>, t: seq<Span>)
    requires multiset(s) == multiset(t)
    requires forall i, j :: 0 <= i < j < |s| ==> s[i] != s[j]
    ensures forall i, j :: 0 <= i < j < |t| ==> t[i] != t[j]
  {
    forall i, j | 0 <= i < j < |t|
      ensures t[i] == t[j] ==> multiset(t)[t[i]] >= 2
    {
      TwiceIfEqual(t, i, j);
    }
    forall x
      ensures multiset(s)[x] <= 1
    {
      OnceIfDistinct(s, x);
    }
  }

  lemma TwiceIfEqual(t: seq<Span>, i: nat, j: nat)
    requires i < j < |t|
    ensures t[i] == t[j] ==> multiset(t)[t[i]] >= 2
  {
    assert t == t[..i] + [t[i]] + t[i + 1..j] + [t[j]] + t[j + 1..];
  }

  lemma {:induction false} OnceIfDistinct(s: seq<Span>, x: Span)
    requires forall i, j :: 0 <= i < j < |s| ==> s[i] != s[j]
    ensures multiset(s)[x] <= 1
  {
    if s != [] {
      var n := |s| - 1;
      assert s == s[..n] + [s[n]];
      OnceIfDistinct(s[..n], x);
      if s[n] == x {
        assert x !in s[..n];
      }
    }
  }

  /** An accepted plan has no two spans with a byte in common, and with nonempty
      areas the plan is refused only when there are such spans. */
  lemma PlanRefusedIff(areas: map<string, Area>, r: Result<seq<Span>>)
    requires AllListed(areas) && IsPlan(areas, r)
    ensures r.Ok? ==> NoneShare(Covers(areas, |FLASH_ORDER|))
    ensures (forall k :: 0 <= k < |FLASH_ORDER| ==> areas[FLASH_ORDER[k]].size > 0) ==>
      (r.Err? <==> !NoneShare(Covers(areas, |FLASH_ORDER|)))
  {
    var spans := Covers(areas, |FLASH_ORDER|);
    OrderOfCovers(areas, |FLASH_ORDER|);
    SortBySorts(spans, Offset);
    DistinctStays(spans, SortBy(spans, Offset));
    OverlapTest(spans, SortBy(spans, Offset));
    if forall k :: 0 <= k < |FLASH_ORDER| ==> areas[FLASH_ORDER[k]].size > 0 {
      forall s | s in spans
        ensures s.size > 0
      {
        var k :| 0 <= k < |spans| && s == spans[k];
        CoverIsLeast(FLASH_ORDER[k], areas[FLASH_ORDER[k]], 0, 0);
      }
    }
  }

  /** When the map's total is at most the chip, so are all spans. */
  lemma PlanInChip(areas: map<string, Area>, total: nat, k: nat)
    requires AllListed(areas) && Bounded(areas, total) && total <= FLASH_SIZE && k < |FLASH_ORDER|
    ensures Covers(areas, |FLASH_ORDER|)[k].End() <= FLASH_SIZE
  {
    CoverIsLeast(FLASH_ORDER[k], areas[FLASH_ORDER[k]], 0, FLASH_SIZE);
    assert Aligned(FLASH_SIZE);
  }
}
