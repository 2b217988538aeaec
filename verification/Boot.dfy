/** The boot verdict: which markers an AP log holds, and when the capture may stop. */
module Boot {
  import opened Results

  const GOOD_MARKERS: seq<string> := ["Starting depthcharge", "Sending DHCP discover", "TFTP"]
  const BAD_MARKERS: seq<string> := ["VB2:vb2_fail", "Need recovery", "Recovery requested", "Entering recovery mode"]
  const SLOT_A: string := "FW_MAIN_A found"
  const SLOT_B: string := "FW_MAIN_B found"

  datatype Verdict = UNDECIDED | GOOD | BAD

  function Rank(v: Verdict): nat
  {
    match v case UNDECIDED => 0 case GOOD => 1 case BAD => 2
  }

  predicate OccursAt(text: string, marker: string, i: nat)
  {
    i + |marker| <= |text| && text[i..i + |marker|] == marker
  }

  predicate Occurs(text: string, marker: string)
  {
    exists i: nat :: i <= |text| && OccursAt(text, marker, i)
  }

  predicate AnyOf(text: string, markers: seq<string>)
  {
    exists k :: 0 <= k < |markers| && Occurs(text, markers[k])
  }

  /** `boot_classify`: any bad marker wins. */
  function Classify(text: string): Verdict
  {
    if AnyOf(text, BAD_MARKERS) then BAD else if AnyOf(text, GOOD_MARKERS) then GOOD else UNDECIDED
  }

  predicate Decisive(text: string)
  {
    AnyOf(text, GOOD_MARKERS) || AnyOf(text, BAD_MARKERS)
  }

  /** Python's `marker in text`. */
  predicate In(marker: string, text: string)
  {
    exists i: nat :: i <= |text| && marker <= text[i..]
  }

  lemma OccursIsIn(text: string, marker: string)
    ensures Occurs(text, marker) <==> In(marker, text)
  {
    forall i: nat | i <= |text|
      ensures OccursAt(text, marker, i) <==> marker <= text[i..]
    {
      if i + |marker| <= |text| {
        assert text[i..i + |marker|] == text[i..][..|marker|];
      }
    }
  }

  predicate SaysBad(text: string)
  {
    || In("VB2:vb2_fail", text) || In("Need recovery", text)
    || In("Recovery requested", text) || In("Entering recovery mode", text)
  }

  predicate SaysGood(text: string)
  {
    In("Starting depthcharge", text) || In("Sending DHCP discover", text) || In("TFTP", text)
  }

  lemma AnyIsSaid(text: string)
    ensures AnyOf(text, BAD_MARKERS) <==> SaysBad(text)
    ensures AnyOf(text, GOOD_MARKERS) <==> SaysGood(text)
  {
    forall m: string
      ensures Occurs(text, m) <==> In(m, text)
    {
      OccursIsIn(text, m);
    }
    if SaysBad(text) {
      var k := if Occurs(text, BAD_MARKERS[0]) then 0 else if Occurs(text, BAD_MARKERS[1]) then 1
               else if Occurs(text, BAD_MARKERS[2]) then 2 else 3;
      assert Occurs(text, BAD_MARKERS[k]);
    }
    if SaysGood(text) {
      var k := if Occurs(text, GOOD_MARKERS[0]) then 0 else if Occurs(text, GOOD_MARKERS[1]) then 1 else 2;
      assert Occurs(text, GOOD_MARKERS[k]);
    }
  }

  /** Each verdict by the markers in the log, and the capture stops exactly on a verdict. */
  lemma VerdictByMarkers(text: string)
    ensures Classify(text) == BAD <==> SaysBad(text)
    ensures Classify(text) == GOOD <==> SaysGood(text) && !SaysBad(text)
    ensures Classify(text) == UNDECIDED <==> !SaysGood(text) && !SaysBad(text)
    ensures Decisive(text) <==> Classify(text) != UNDECIDED
  {
    AnyIsSaid(text);
  }

  /** `rfind`: the last place where the marker occurs, before `end`. */
  function LastBefore(text: string, marker: string, end: nat): (r: Option<nat>)
    ensures r.Some? ==> r.value < end && OccursAt(text, marker, r.value)
    ensures forall i: nat :: i < end && (r.Some? ==> r.value < i) ==> !OccursAt(text, marker, i)
  {
    if end == 0 then None
    else if OccursAt(text, marker, end - 1) then Some(end - 1)
    else LastBefore(text, marker, end - 1)
  }

  /** `boot_slot` */
  function Slot(text: string): Option<char>
  {
    var a, b := LastBefore(text, SLOT_A, |text| + 1), LastBefore(text, SLOT_B, |text| + 1);
    var last := if a.Some? then Some(('A', a.value)) else None;
    var last' := if b.Some? && (last.None? || b.value > last.value.1) then Some(('B', b.value)) else last;
    if last'.Some? then Some(last'.value.0) else None
  }

  /** The slot is that of the marker that occurs last. */
  lemma SlotIsLast(text: string)
    ensures var a, b := "FW_MAIN_A found", "FW_MAIN_B found";
      && (Slot(text) == Some('A') <==>
            exists i: nat :: OccursAt(text, a, i) && forall j: nat :: j >= i ==> !OccursAt(text, b, j))
      && (Slot(text) == Some('B') <==>
            exists i: nat :: OccursAt(text, b, i) && forall j: nat :: j >= i ==> !OccursAt(text, a, j))
      && (Slot(text) == None <==> !Occurs(text, a) && !Occurs(text, b))
  {
    forall i: nat | OccursAt(text, SLOT_A, i)
      ensures i < |text| + 1 && !OccursAt(text, SLOT_B, i)
    {
      assert text[i..i + 15] == SLOT_A;
      assert SLOT_A[8] == 'A' && SLOT_B[8] == 'B';
      assert text[i..i + 15][8] == 'A';
    }
    var a, b := LastBefore(text, SLOT_A, |text| + 1), LastBefore(text, SLOT_B, |text| + 1);
    if a.Some? { assert OccursAt(text, SLOT_A, a.value); }
    if b.Some? { assert OccursAt(text, SLOT_B, b.value); }
  }

  /** A marker stays where it is when the log grows. */
  lemma OccursGrows(text: string, more: string, marker: string)
    requires Occurs(text, marker)
    ensures Occurs(text + more, marker)
  {
    var i: nat :| i <= |text| && OccursAt(text, marker, i);
    assert (text + more)[i..i + |marker|] == text[i..i + |marker|];
    assert OccursAt(text + more, marker, i);
  }

  lemma AnyOfGrows(text: string, more: string, markers: seq<string>)
    requires AnyOf(text, markers)
    ensures AnyOf(text + more, markers)
  {
    var k :| 0 <= k < |markers| && Occurs(text, markers[k]);
    OccursGrows(text, more, markers[k]);
  }

  /** `replace(b"\x00", b"")` */
  function Strip(log: string): string
  {
    if log == [] then []
    else if log[0] == '\0' then Strip(log[1..])
    else [log[0]] + Strip(log[1..])
  }

  /** No NUL is left, and what has none is left as it is. */
  lemma {:induction false} StripExact(log: string)
    ensures '\0' !in Strip(log) && ('\0' !in log ==> Strip(log) == log)
  {
    if log != [] {
      StripExact(log[1..]);
      assert log == [log[0]] + log[1..];
    }
  }

  lemma {:induction false} StripJoins(a: string, b: string)
    ensures Strip(a + b) == Strip(a) + Strip(b)
  {
    if a == [] {
      assert a + b == b;
    } else {
      assert (a + b)[1..] == a[1..] + b;
      StripJoins(a[1..], b);
    }
  }

  /** The verdict only rises as the capture grows, wherever its NULs fall. */
  lemma VerdictMonotone(log: string, more: string)
    ensures Rank(Classify(Strip(log))) <= Rank(Classify(Strip(log + more)))
  {
    StripJoins(log, more);
    if AnyOf(Strip(log), BAD_MARKERS) {
      AnyOfGrows(Strip(log), Strip(more), BAD_MARKERS);
    } else if AnyOf(Strip(log), GOOD_MARKERS) {
      AnyOfGrows(Strip(log), Strip(more), GOOD_MARKERS);
    }
  }

  /** A NUL anywhere in the log makes no difference. */
  lemma NulsIgnored(a: string, b: string)
    ensures Strip(a + ['\0'] + b) == Strip(a + b)
  {
    StripJoins(a + ['\0'], b);
    StripJoins(a, ['\0']);
    StripJoins(a, b);
  }

  function Joined(chunks: seq<string>): string
  {
    if chunks == [] then "" else Joined(chunks[..|chunks| - 1]) + chunks[|chunks| - 1]
  }

  lemma {:induction false} JoinedAppends(a: seq<string>, b: seq<string>)
    ensures Joined(a + b) == Joined(a) + Joined(b)
  {
    if b == [] {
      assert a + b == a;
    } else {
      var n := |b| - 1;
      assert (a + b)[..|a + b| - 1] == a + b[..n];
      JoinedAppends(a, b[..n]);
    }
  }

  lemma ReadsJoin(parts: seq<string>, n: nat)
    requires n < |parts|
    ensures Joined(parts[..n + 1]) == Joined(parts[..n]) + parts[n]
  {
    assert parts[..n + 1][..n] == parts[..n];
  }

  /** A log that decides goes on deciding. */
  lemma StaysDecided(log: string, more: string)
    requires Decisive(Strip(log))
    ensures Classify(Strip(log + more)) != UNDECIDED
  {
    VerdictMonotone(log, more);
  }

  /** Read until the log decides or the reads are used up. */
  method ReadUntil(parts: seq<string>) returns (buf: string, decisive: bool, ghost used: nat)
    ensures used <= |parts| && buf == Joined(parts[..used])
    ensures decisive ==> Decisive(Strip(buf))
    ensures !decisive ==> used == |parts| && forall k :: 0 < k <= used ==> !Decisive(Strip(Joined(parts[..k])))
  {
    buf, decisive, used := "", false, 0;
    for n := 0 to |parts|
      invariant used == n && buf == Joined(parts[..n]) && !decisive
      invariant forall k :: 0 < k <= n ==> !Decisive(Strip(Joined(parts[..k])))
    {
      ReadsJoin(parts, n);
      buf := buf + parts[n];
      used := n + 1;
      if Decisive(Strip(buf)) {
        decisive := true;
        break;
      }
    }
  }

  /** Read on, whatever comes. */
  method ReadContext(start: string, parts: seq<string>) returns (buf: string)
    ensures buf == start + Joined(parts)
  {
    buf := start;
    for n := 0 to |parts|
      invariant buf == start + Joined(parts[..n])
    {
      ReadsJoin(parts, n);
      buf := buf + parts[n];
    }
    assert parts[..|parts|] == parts;
  }

  /** The capture of verify_boot: read until the log decides or `chunks` (the reads
      before the deadline) are used up, then read `context`. */
  method Capture(chunks: seq<string>, context: seq<string>) returns (text: string, decisive: bool, ghost used: nat)
    ensures used <= |chunks| && text == Strip(Joined(chunks[..used] + context))
    ensures decisive ==> Classify(text) != UNDECIDED
    ensures !decisive ==> used == |chunks| && forall k :: 0 < k <= used ==> !Decisive(Strip(Joined(chunks[..k])))
  {
    var buf;
    buf, decisive, used := ReadUntil(chunks);
    JoinedAppends(chunks[..used], context);
    if decisive {
      StaysDecided(buf, Joined(context));
    }
    buf := ReadContext(buf, context);
    text := Strip(buf);
  }
}
