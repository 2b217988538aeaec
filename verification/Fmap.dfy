/** `parse_fmap`: find the flash map in an image. */
module Fmap {
  import opened Results
  import opened Bytes

  const FMAP_SIGNATURE: seq<byte> := [0x5F, 0x5F, 0x46, 0x4D, 0x41, 0x50, 0x5F, 0x5F]
  const FMAP_EXPECTED_OFFSET: nat := 0x300000
  const HEADER: nat := 56            // signature, version, base, total, name, count
  const RECORD: nat := 42            // offset, size, name, flags
  const MAX_TOTAL: nat := 0x10000000

  datatype Area = Area(off: nat, size: nat)

  // ------------------------------------------------------------- decoding

  function Le16(data: seq<byte>, o: nat): nat
    requires o + 2 <= |data|
  {
    (data[o] as int) + 0x100 * (data[o + 1] as int)
  }

  function Le32(data: seq<byte>, o: nat): nat
    requires o + 4 <= |data|
  {
    Le16(data, o) + 0x10000 * Le16(data, o + 2)
  }

  /** `split(b"\0")[0]` */
  function CString(s: seq<byte>): seq<byte>
  {
    if s == [] || s[0] == 0 then [] else [s[0]] + CString(s[1..])
  }

  /** `decode("ascii", "replace")` */
  function Ascii(s: seq<byte>): string
  {
    seq(|s|, i requires 0 <= i < |s| => if s[i] < 0x80 then s[i] as char else '\U{FFFD}')
  }

  predicate SignatureAt(data: seq<byte>, i: nat)
  {
    i + |FMAP_SIGNATURE| <= |data| && data[i..i + |FMAP_SIGNATURE|] == FMAP_SIGNATURE
  }

  predicate Printable(name: seq<byte>)
  {
    name != [] && forall k :: 0 <= k < |name| ==> 0x20 <= name[k] <= 0x7E
  }

  function Total(data: seq<byte>, i: nat): nat requires i + HEADER <= |data| { Le32(data, i + 18) }

  function Count(data: seq<byte>, i: nat): nat requires i + HEADER <= |data| { Le16(data, i + 54) }

  predicate SaneHeader(data: seq<byte>, i: nat)
  {
    && i + HEADER <= |data|
    && Printable(CString(Slice(data, i + 22, i + 54)))
    && 1 <= Count(data, i) <= 255 && 0 < Total(data, i) <= MAX_TOTAL
  }

  /** Area record j of the table at o can be unpacked; its name may be cut short. */
  predicate RecordFits(data: seq<byte>, o: nat, j: nat)
  {
    o + RECORD * j + 8 <= |data|
  }

  function AreaName(data: seq<byte>, o: nat, j: nat): string
  {
    Ascii(CString(Slice(data, o + RECORD * j + 8, o + RECORD * j + 40)))
  }

  function AreaAt(data: seq<byte>, o: nat, j: nat): Area
    requires RecordFits(data, o, j)
  {
    Area(Le32(data, o + RECORD * j), Le32(data, o + RECORD * j + 4))
  }

  /** The dictionary after the first n records: a later record replaces a namesake. */
  function Table(data: seq<byte>, o: nat, n: nat): map<string, Area>
    requires n == 0 || RecordFits(data, o, n - 1)
  {
    if n == 0 then map[]
    else Table(data, o, n - 1)[AreaName(data, o, n - 1) := AreaAt(data, o, n - 1)]
  }

  predicate Bounded(areas: map<string, Area>, total: nat)
  {
    forall name :: name in areas ==> areas[name].off + areas[name].size <= total
  }

  /** A structurally sane map starts at i. */
  predicate SaneAt(data: seq<byte>, i: nat)
  {
    && SignatureAt(data, i) && SaneHeader(data, i)
    && RecordFits(data, i + HEADER, Count(data, i) - 1)
    && Bounded(Table(data, i + HEADER, Count(data, i)), Total(data, i))
  }

  function AreasAt(data: seq<byte>, i: nat): map<string, Area>
    requires SaneAt(data, i)
  {
    Table(data, i + HEADER, Count(data, i))
  }

  // ------------------------------------------------ what sane means, in bytes

  /** Everything before the first zero byte. */
  lemma {:induction false} CStringIs(s: seq<byte>)
    ensures var n := |CString(s)|;
      n <= |s| && CString(s) == s[..n] && (n < |s| ==> s[n] == 0) && forall k :: 0 <= k < n ==> s[k] != 0
  {
    if s != [] && s[0] != 0 {
      CStringIs(s[1..]);
    }
  }

  /** The signature, a map name of 1 to 32 printable bytes that a zero byte ends if it is
      shorter, 1 to 255 areas, and a total of at most 256 MiB. */
  ghost predicate RawHeader(data: seq<byte>, i: nat)
  {
    && i + 56 <= |data|
    && data[i..i + 8] == [0x5F, 0x5F, 0x46, 0x4D, 0x41, 0x50, 0x5F, 0x5F]
    && HasName(data[i + 22..i + 54])
    && 1 <= data[i + 54] as int + 0x100 * data[i + 55] as int <= 255
    && 0 < data[i + 18] as int + 0x100 * data[i + 19] as int + 0x10000 * data[i + 20] as int
           + 0x1000000 * data[i + 21] as int <= 0x10000000
  }

  ghost predicate NameOf(field: seq<byte>, n: nat)
  {
    && n <= |field| && (n < |field| ==> field[n] == 0)
    && forall k :: 0 <= k < n ==> 0x20 <= field[k] <= 0x7E
  }

  ghost predicate HasName(field: seq<byte>)
  {
    exists n :: 1 <= n <= 32 && NameOf(field, n)
  }

  lemma PrintableIff(field: seq<byte>)
    requires |field| == 32
    ensures Printable(CString(field)) <==> HasName(field)
  {
    CStringIs(field);
    var m := |CString(field)|;
    if Printable(CString(field)) {
      assert forall k :: 0 <= k < m ==> field[k] == CString(field)[k];
      assert NameOf(field, m);
    }
    if n :| 1 <= n <= 32 && NameOf(field, n) {
      assert n <= m && m <= n;
    }
  }

  /** A signature is taken up exactly if its header is one, and skipped otherwise. */
  lemma HeaderIff(data: seq<byte>, i: nat)
    ensures SignatureAt(data, i) && SaneHeader(data, i) <==> RawHeader(data, i)
  {
    if i + 56 <= |data| {
      PrintableIff(data[i + 22..i + 54]);
    }
  }

  /** Key j has no later namesake. */
  ghost predicate Last<K>(keys: seq<K>, j: nat)
  {
    j < |keys| && forall l :: j < l < |keys| ==> keys[l] != keys[j]
  }

  /** The dictionary that a loop over keys and values fills. */
  function Dict<K, V>(keys: seq<K>, values: seq<V>): map<K, V>
    requires |keys| == |values|
  {
    if keys == [] then map[]
    else Dict(keys[..|keys| - 1], values[..|keys| - 1])[keys[|keys| - 1] := values[|keys| - 1]]
  }

  /** It has each key, with the value that came last. */
  lemma {:induction false} DictLast<K, V>(keys: seq<K>, values: seq<V>, j: nat)
    requires |keys| == |values| && Last(keys, j)
    ensures keys[j] in Dict(keys, values) && Dict(keys, values)[keys[j]] == values[j]
  {
    if j < |keys| - 1 {
      DictLast(keys[..|keys| - 1], values[..|keys| - 1], j);
    }
  }

  lemma {:induction false} DictHas<K, V>(keys: seq<K>, values: seq<V>, key: K) returns (j: nat)
    requires |keys| == |values| && key in Dict(keys, values)
    ensures Last(keys, j) && keys[j] == key
  {
    var n := |keys| - 1;
    if keys[n] == key {
      j := n;
    } else {
      j := DictHas(keys[..n], values[..n], key);
      assert keys[..n][j] == keys[j];
      forall l | j < l < n
        ensures keys[l] != key
      {
        assert keys[l] == keys[..n][l];
      }
    }
  }

  function Names(data: seq<byte>, o: nat, n: nat): (r: seq<string>)
    ensures |r| == n
  {
    seq(n, j requires 0 <= j < n => AreaName(data, o, j))
  }

  function Areas(data: seq<byte>, o: nat, n: nat): (r: seq<Area>)
    requires n == 0 || RecordFits(data, o, n - 1)
    ensures |r| == n
  {
    seq(n, j requires 0 <= j < n => AreaAt(data, o, j))
  }

  lemma {:induction false} TableIsDict(data: seq<byte>, o: nat, n: nat)
    requires n == 0 || RecordFits(data, o, n - 1)
    ensures Table(data, o, n) == Dict(Names(data, o, n), Areas(data, o, n))
  {
    if n > 0 {
      TableIsDict(data, o, n - 1);
      assert Names(data, o, n)[..n - 1] == Names(data, o, n - 1);
      assert Areas(data, o, n)[..n - 1] == Areas(data, o, n - 1);
    }
  }

  /** The last record of each name ends within the total. */
  ghost predicate LastsEnd(data: seq<byte>, o: nat, n: nat, total: nat)
    requires n == 0 || RecordFits(data, o, n - 1)
  {
    forall j: nat :: Last(Names(data, o, n), j) ==> Areas(data, o, n)[j].off + Areas(data, o, n)[j].size <= total
  }

  /** All its records fit, and the last one of each name ends within the total. */
  lemma SaneIff(data: seq<byte>, i: nat)
    ensures SaneAt(data, i) <==>
      && RawHeader(data, i) && RecordFits(data, i + 56, Count(data, i) - 1)
      && LastsEnd(data, i + 56, Count(data, i), Total(data, i))
  {
    HeaderIff(data, i);
    if RawHeader(data, i) && RecordFits(data, i + 56, Count(data, i) - 1) {
      BoundedIff(data, i + 56, Count(data, i), Total(data, i));
    }
  }

  lemma BoundedIff(data: seq<byte>, o: nat, n: nat, total: nat)
    requires n == 0 || RecordFits(data, o, n - 1)
    ensures Bounded(Table(data, o, n), total) <==> LastsEnd(data, o, n, total)
  {
    var names, areas := Names(data, o, n), Areas(data, o, n);
    TableIsDict(data, o, n);
    forall j: nat | Last(names, j)
      ensures names[j] in Dict(names, areas) && Dict(names, areas)[names[j]] == areas[j]
    {
      DictLast(names, areas, j);
    }
    forall name | name in Dict(names, areas)
      ensures exists j: nat :: Last(names, j) && names[j] == name
    {
      var j := DictHas(names, areas, name);
    }
  }

  /** A decoded name is a given ASCII name only if it has its very bytes. */
  lemma AsciiIff(s: seq<byte>, name: string)
    requires forall k :: 0 <= k < |name| ==> name[k] < '\U{80}'
    ensures Ascii(s) == name <==> |s| == |name| && forall k :: 0 <= k < |s| ==> s[k] as int == name[k] as int
  {
    if Ascii(s) == name {
      forall k | 0 <= k < |s|
        ensures s[k] as int == name[k] as int
      {
        assert Ascii(s)[k] == name[k];
      }
    }
    if |s| == |name| && forall k :: 0 <= k < |s| ==> s[k] as int == name[k] as int {
      forall k | 0 <= k < |s|
        ensures Ascii(s)[k] == name[k]
      {
        assert s[k] as char == name[k];
      }
    }
  }

  // ----------------------------------------------------------------- scan

  ghost predicate FirstSane(data: seq<byte>, i: nat)
  {
    SaneAt(data, i) && forall j: nat :: j < i ==> !SaneAt(data, j)
  }

  /** The sane map at the conventional offset, else the first sane one, else none. */
  ghost predicate IsFmap(data: seq<byte>, r: Option<map<string, Area>>)
  {
    if SaneAt(data, 0x300000) then r == Some(AreasAt(data, 0x300000))
    else match r
      case Some(areas) => exists i: nat :: FirstSane(data, i) && areas == AreasAt(data, i)
      case None => forall i: nat :: !SaneAt(data, i)
  }

  lemma FmapUnique(data: seq<byte>, r: Option<map<string, Area>>, r': Option<map<string, Area>>)
    requires IsFmap(data, r) && IsFmap(data, r')
    ensures r == r'
  {
    if r.Some? && r'.Some? && !SaneAt(data, FMAP_EXPECTED_OFFSET) {
      var i: nat :| FirstSane(data, i) && r.value == AreasAt(data, i);
      var i': nat :| FirstSane(data, i') && r'.value == AreasAt(data, i');
      assert i == i';
    }
  }

  lemma LeastSane(data: seq<byte>, i: nat) returns (j: nat)
    requires SaneAt(data, i)
    ensures FirstSane(data, j)
    decreases i
  {
    if k: nat :| k < i && SaneAt(data, k) {
      j := LeastSane(data, k);
    } else {
      j := i;
    }
  }

  /** ... and exists. */
  lemma FmapExists(data: seq<byte>) returns (r: Option<map<string, Area>>)
    ensures IsFmap(data, r)
  {
    if SaneAt(data, FMAP_EXPECTED_OFFSET) {
      r := Some(AreasAt(data, FMAP_EXPECTED_OFFSET));
    } else if i: nat :| SaneAt(data, i) {
      var j := LeastSane(data, i);
      r := Some(AreasAt(data, j));
    } else {
      r := None;
    }
  }

  /** `data.find(FMAP_SIGNATURE, start)` */
  method Find(data: seq<byte>, start: nat) returns (r: Option<nat>)
    ensures r.Some? ==> start <= r.value && SignatureAt(data, r.value)
    ensures forall j: nat :: start <= j && (r.Some? ==> j < r.value) ==> !SignatureAt(data, j)
  {
    var i := start;
    while i + |FMAP_SIGNATURE| <= |data|
      invariant start <= i
      invariant forall j: nat :: start <= j < i ==> !SignatureAt(data, j)
      decreases |data| - i
    {
      if data[i..i + |FMAP_SIGNATURE|] == FMAP_SIGNATURE {
        return Some(i);
      }
      i := i + 1;
    }
    return None;
  }

  /** The inner loop: the dictionary of `count` records, or None when one does not fit. */
  method ReadTable(data: seq<byte>, table: nat, count: nat) returns (r: Option<map<string, Area>>)
    requires count >= 1
    ensures r.Some? <==> RecordFits(data, table, count - 1)
    ensures r.Some? ==> r.value == Table(data, table, count)
  {
    var areas: map<string, Area> := map[];
    var o := table;
    for j := 0 to count
      invariant o == table + RECORD * j
      invariant j > 0 ==> RecordFits(data, table, j - 1)
      invariant areas == Table(data, table, j)
    {
      if o + 8 > |data| {
        return None;
      }
      var area := Area(Le32(data, o), Le32(data, o + 4));
      var name := Ascii(CString(Slice(data, o + 8, o + 40)));
      o := o + RECORD;
      areas := areas[name := area];
    }
    return Some(areas);
  }

  /** The checks on one signature. */
  method ParseAt(data: seq<byte>, i: nat) returns (r: Option<map<string, Area>>)
    requires SignatureAt(data, i)
    ensures r.Some? <==> SaneAt(data, i)
    ensures r.Some? ==> r.value == AreasAt(data, i)
  {
    if !SaneHeader(data, i) {
      return None;
    }
    r := ReadTable(data, i + HEADER, Count(data, i));
    if r.Some? && !Bounded(r.value, Total(data, i)) {
      return None;
    }
  }

  /** No map before `start` but the one in `best`, if any. */
  ghost predicate Scanned(data: seq<byte>, start: nat, best: Option<map<string, Area>>)
  {
    match best
    case None => forall j: nat :: j < start ==> !SaneAt(data, j)
    case Some(areas) => exists i: nat :: i < start && FirstSane(data, i) && areas == AreasAt(data, i)
  }

  lemma ScanStep(data: seq<byte>, start: nat, i: nat, best: Option<map<string, Area>>, here: Option<map<string, Area>>)
    requires Scanned(data, start, best) && start <= i
    requires forall j: nat :: start <= j < i ==> !SignatureAt(data, j)
    requires here.Some? <==> SaneAt(data, i)
    requires here.Some? ==> here.value == AreasAt(data, i)
    ensures Scanned(data, i + 1, if best.Some? then best else here)
  {
    if best.None? {
      forall j: nat | j < i
        ensures !SaneAt(data, j)
      {
      }
    }
  }

  lemma ScanEnds(data: seq<byte>, start: nat, best: Option<map<string, Area>>)
    requires Scanned(data, start, best) && !SaneAt(data, FMAP_EXPECTED_OFFSET)
    requires forall j: nat :: start <= j ==> !SignatureAt(data, j)
    ensures IsFmap(data, best)
  {
    if best.None? {
      forall j: nat
        ensures !SaneAt(data, j)
      {
      }
    }
  }

  /** `parse_fmap` */
  method ParseFmap(data: seq<byte>) returns (best: Option<map<string, Area>>)
    ensures IsFmap(data, best)
  {
    best := None;
    var start := 0;
    while true
      invariant start <= |data|
      invariant start > FMAP_EXPECTED_OFFSET ==> !SaneAt(data, FMAP_EXPECTED_OFFSET)
      invariant Scanned(data, start, best)
      decreases |data| - start
    {
      var found := Find(data, start);
      if found.None? {
        ScanEnds(data, start, best);
        return;
      }
      var i := found.value;
      var areas := ParseAt(data, i);
      ScanStep(data, start, i, best, areas);
      start := i + 1;
      if areas.Some? && i == FMAP_EXPECTED_OFFSET {
        return areas;
      }
      best := if best.Some? then best else areas;
    }
  }
}
