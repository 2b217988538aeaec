/** The flash map as it is written, and the round trip through the parser. */
module FmapLayout {
  import opened Results
  import opened Bytes
  import opened Fmap

  const NAME: nat := 32

  datatype Entry = Entry(name: seq<byte>, off: nat, size: nat, flags: seq<byte>)

  datatype Layout = Layout(version: seq<byte>, base: seq<byte>, total: nat, name: seq<byte>, entries: seq<Entry>)

  function Le2(n: nat): (r: seq<byte>)
    ensures |r| == 2
  {
    [n % 256, n / 0x100 % 256]
  }

  function Le4(n: nat): (r: seq<byte>)
    ensures |r| == 4
  {
    Le2(n % 0x10000) + Le2(n / 0x10000)
  }

  function Zeros(n: nat): seq<byte> { seq(n, _ => 0) }

  function Padded(name: seq<byte>): (r: seq<byte>)
    requires |name| <= NAME
    ensures |r| == NAME
  {
    name + Zeros(NAME - |name|)
  }

  predicate WellFormedEntry(e: Entry, total: nat)
  {
    && |e.name| <= NAME && (forall k :: 0 <= k < |e.name| ==> 0 < e.name[k] < 0x80)
    && |e.flags| == 2 && e.off + e.size <= total
  }

  predicate WellFormed(l: Layout)
  {
    && |l.version| == 2 && |l.base| == 8 && 0 < l.total <= MAX_TOTAL
    && Printable(l.name) && |l.name| <= NAME
    && 1 <= |l.entries| <= 255
    && (forall j :: 0 <= j < |l.entries| ==> WellFormedEntry(l.entries[j], l.total))
    && (forall j, k :: 0 <= j < k < |l.entries| ==> l.entries[j].name != l.entries[k].name)
  }

  function EncodeEntry(e: Entry): (r: seq<byte>)
    requires |e.name| <= NAME && |e.flags| == 2
    ensures |r| == RECORD
  {
    Le4(e.off) + Le4(e.size) + Padded(e.name) + e.flags
  }

  function EncodeEntries(entries: seq<Entry>, total: nat): (r: seq<byte>)
    requires forall j :: 0 <= j < |entries| ==> WellFormedEntry(entries[j], total)
    ensures |r| == RECORD * |entries|
  {
    if entries == [] then []
    else
      assert WellFormedEntry(entries[|entries| - 1], total);
      EncodeEntries(entries[..|entries| - 1], total) + EncodeEntry(entries[|entries| - 1])
  }

  function EncodeHeader(l: Layout): (r: seq<byte>)
    requires WellFormed(l)
    ensures |r| == HEADER
  {
    FMAP_SIGNATURE + l.version + l.base + Le4(l.total) + Padded(l.name) + Le2(|l.entries|)
  }

  function Encode(l: Layout): seq<byte>
    requires WellFormed(l)
  {
    EncodeHeader(l) + EncodeEntries(l.entries, l.total)
  }

  lemma Le2Decodes(data: seq<byte>, o: nat, n: nat)
    requires o + 2 <= |data| && data[o..o + 2] == Le2(n) && n < 0x10000
    ensures Le16(data, o) == n
  {
    assert data[o] == data[o..o + 2][0] && data[o + 1] == data[o..o + 2][1];
  }

  lemma Le4Decodes(data: seq<byte>, o: nat, n: nat)
    requires o + 4 <= |data| && data[o..o + 4] == Le4(n) && n < 0x1_0000_0000
    ensures Le32(data, o) == n
  {
    assert data[o..o + 2] == data[o..o + 4][..2] == Le2(n % 0x10000);
    assert data[o + 2..o + 4] == data[o..o + 4][2..] == Le2(n / 0x10000);
    Le2Decodes(data, o, n % 0x10000);
    Le2Decodes(data, o + 2, n / 0x10000);
  }

  lemma {:induction false} NameDecodes(name: seq<byte>, padding: nat)
    requires forall k :: 0 <= k < |name| ==> name[k] != 0
    ensures CString(name + Zeros(padding)) == name
  {
    var s := name + Zeros(padding);
    if name != [] {
      assert s[1..] == name[1..] + Zeros(padding);
      NameDecodes(name[1..], padding);
    }
  }

  lemma AsciiInjective(a: seq<byte>, b: seq<byte>)
    requires forall k :: 0 <= k < |a| ==> a[k] < 0x80
    requires forall k :: 0 <= k < |b| ==> b[k] < 0x80
    requires Ascii(a) == Ascii(b)
    ensures a == b
  {
    forall k | 0 <= k < |a|
      ensures a[k] == b[k]
    {
      assert Ascii(a)[k] == a[k] as char && Ascii(b)[k] == b[k] as char;
    }
  }

  /** Record j of the table, as bytes. */
  lemma {:induction false} EntryBytes(entries: seq<Entry>, total: nat, j: nat)
    requires (forall k :: 0 <= k < |entries| ==> WellFormedEntry(entries[k], total)) && j < |entries|
    ensures RECORD * j + RECORD <= RECORD * |entries|
    ensures EncodeEntries(entries, total)[RECORD * j..RECORD * j + RECORD] == EncodeEntry(entries[j])
  {
    var n := |entries| - 1;
    var front := EncodeEntries(entries[..n], total);
    if j < n {
      EntryBytes(entries[..n], total, j);
      assert EncodeEntries(entries, total)[RECORD * j..RECORD * j + RECORD] == front[RECORD * j..RECORD * j + RECORD];
    }
  }

  lemma SubSlice(s: seq<byte>, lo: nat, hi: nat, a: nat, b: nat)
    requires lo <= hi <= |s| && a <= b <= hi - lo
    ensures s[lo..hi][a..b] == s[lo + a..lo + b]
  {
    var left, right := s[lo..hi][a..b], s[lo + a..lo + b];
    assert |left| == |right|;
    forall k | 0 <= k < |left|
      ensures left[k] == right[k]
    {
    }
  }

  lemma Middle(a: seq<byte>, b: seq<byte>, c: seq<byte>)
    ensures (a + b + c)[|a|..|a| + |b|] == b
  {
  }

  /** A record that holds an entry decodes to it. */
  lemma EntryDecodes(data: seq<byte>, o: nat, e: Entry, total: nat)
    requires WellFormedEntry(e, total) && total <= MAX_TOTAL
    requires o + RECORD <= |data| && data[o..o + RECORD] == EncodeEntry(e)
    ensures Le32(data, o) == e.off && Le32(data, o + 4) == e.size
    ensures CString(Slice(data, o + 8, o + 40)) == e.name
  {
    var off, size, name := Le4(e.off), Le4(e.size), Padded(e.name);
    var r := EncodeEntry(e);
    Middle([], off, size + name + e.flags);
    assert [] + off + (size + name + e.flags) == r;
    Middle(off, size, name + e.flags);
    assert off + size + (name + e.flags) == r;
    Middle(off + size, name, e.flags);
    SubSlice(data, o, o + RECORD, 0, 4);
    SubSlice(data, o, o + RECORD, 4, 8);
    SubSlice(data, o, o + RECORD, 8, 40);
    Le4Decodes(data, o, e.off);
    Le4Decodes(data, o + 4, e.size);
    NameDecodes(e.name, NAME - |e.name|);
  }

  /** Record j of the table at o decodes to entry j. */
  predicate EntryHolds(data: seq<byte>, o: nat, entries: seq<Entry>, j: nat)
    requires j < |entries|
  {
    && RecordFits(data, o, j)
    && AreaName(data, o, j) == Ascii(entries[j].name)
    && AreaAt(data, o, j) == Area(entries[j].off, entries[j].size)
  }

  ghost predicate TableHolds(data: seq<byte>, o: nat, entries: seq<Entry>)
  {
    forall j {:trigger EntryHolds(data, o, entries, j)} :: 0 <= j < |entries| ==> EntryHolds(data, o, entries, j)
  }

  /** The layout's entries as a dictionary. */
  function Dictionary(entries: seq<Entry>): map<string, Area>
  {
    if entries == [] then map[]
    else
      var e := entries[|entries| - 1];
      Dictionary(entries[..|entries| - 1])[Ascii(e.name) := Area(e.off, e.size)]
  }

  lemma {:induction false} TableDecodes(data: seq<byte>, o: nat, entries: seq<Entry>, n: nat)
    requires TableHolds(data, o, entries) && n <= |entries|
    ensures n == 0 || RecordFits(data, o, n - 1)
    ensures Table(data, o, n) == Dictionary(entries[..n])
  {
    if n > 0 {
      TableDecodes(data, o, entries, n - 1);
      assert EntryHolds(data, o, entries, n - 1);
      DictionaryStep(entries, n - 1);
    }
  }

  lemma DictionaryStep(entries: seq<Entry>, n: nat)
    requires n < |entries|
    ensures Dictionary(entries[..n + 1]) ==
            Dictionary(entries[..n])[Ascii(entries[n].name) := Area(entries[n].off, entries[n].size)]
  {
    assert entries[..n + 1][..n] == entries[..n] && entries[..n + 1][n] == entries[n];
  }

  ghost predicate Listed(entries: seq<Entry>, name: string)
  {
    exists j :: 0 <= j < |entries| && name == Ascii(entries[j].name)
  }

  /** Every entry is in the dictionary under its own name, and nothing else is. */
  lemma {:induction false} DictionaryExact(entries: seq<Entry>, n: nat)
    requires n <= |entries|
    requires forall j, k :: 0 <= j < k < |entries| ==> Ascii(entries[j].name) != Ascii(entries[k].name)
    ensures forall j :: 0 <= j < n ==>
      Ascii(entries[j].name) in Dictionary(entries[..n])
      && Dictionary(entries[..n])[Ascii(entries[j].name)] == Area(entries[j].off, entries[j].size)
    ensures forall name :: name in Dictionary(entries[..n]) ==> Listed(entries, name)
  {
    if n > 0 {
      DictionaryExact(entries, n - 1);
      DictionaryStep(entries, n - 1);
      forall name | name in Dictionary(entries[..n])
        ensures Listed(entries, name)
      {
        assert name == Ascii(entries[n - 1].name) || name in Dictionary(entries[..n - 1]);
      }
      forall j | 0 <= j < n
        ensures Ascii(entries[j].name) in Dictionary(entries[..n])
        ensures Dictionary(entries[..n])[Ascii(entries[j].name)] == Area(entries[j].off, entries[j].size)
      {
        assert j < n - 1 ==> Ascii(entries[j].name) != Ascii(entries[n - 1].name);
      }
    }
  }

  lemma RecordBytes(data: seq<byte>, o: nat, l: Layout, j: nat)
    requires WellFormed(l) && o + RECORD * |l.entries| <= |data| && j < |l.entries|
    requires data[o..o + RECORD * |l.entries|] == EncodeEntries(l.entries, l.total)
    ensures o + RECORD * j + RECORD <= |data|
    ensures data[o + RECORD * j..o + RECORD * j + RECORD] == EncodeEntry(l.entries[j])
  {
    EntryBytes(l.entries, l.total, j);
    SubSlice(data, o, o + RECORD * |l.entries|, RECORD * j, RECORD * j + RECORD);
  }

  lemma RecordHolds(data: seq<byte>, o: nat, l: Layout, j: nat)
    requires WellFormed(l) && o + RECORD * j + RECORD <= |data| && j < |l.entries|
    requires data[o + RECORD * j..o + RECORD * j + RECORD] == EncodeEntry(l.entries[j])
    ensures EntryHolds(data, o, l.entries, j)
  {
    EntryDecodes(data, o + RECORD * j, l.entries[j], l.total);
  }

  lemma TableBytes(data: seq<byte>, o: nat, l: Layout)
    requires WellFormed(l) && o + RECORD * |l.entries| <= |data|
    requires data[o..o + RECORD * |l.entries|] == EncodeEntries(l.entries, l.total)
    ensures TableHolds(data, o, l.entries)
  {
    forall j | 0 <= j < |l.entries|
      ensures EntryHolds(data, o, l.entries, j)
    {
      RecordBytes(data, o, l, j);
      RecordHolds(data, o, l, j);
    }
  }

  lemma HeaderBytes(l: Layout)
    requires WellFormed(l)
    ensures var h := EncodeHeader(l);
      && h[0..8] == FMAP_SIGNATURE && h[18..22] == Le4(l.total)
      && h[22..54] == Padded(l.name) && h[54..56] == Le2(|l.entries|)
  {
    var total, name, count := Le4(l.total), Padded(l.name), Le2(|l.entries|);
    var front := FMAP_SIGNATURE + l.version + l.base;
    var h := EncodeHeader(l);
    Middle([], FMAP_SIGNATURE, l.version + l.base + total + name + count);
    assert [] + FMAP_SIGNATURE + (l.version + l.base + total + name + count) == h;
    Middle(front, total, name + count);
    assert front + total + (name + count) == h;
    Middle(front + total, name, count);
    Middle(front + total + name, count, []);
    assert front + total + name + count + [] == h;
  }

  lemma HeaderDecodes(data: seq<byte>, i: nat, l: Layout)
    requires WellFormed(l) && i + HEADER <= |data| && data[i..i + HEADER] == EncodeHeader(l)
    ensures SignatureAt(data, i) && SaneHeader(data, i)
    ensures Count(data, i) == |l.entries| && Total(data, i) == l.total
  {
    HeaderBytes(l);
    SubSlice(data, i, i + HEADER, 0, 8);
    SubSlice(data, i, i + HEADER, 18, 22);
    SubSlice(data, i, i + HEADER, 22, 54);
    SubSlice(data, i, i + HEADER, 54, 56);
    Le4Decodes(data, i + 18, l.total);
    Le2Decodes(data, i + 54, |l.entries|);
    NameDecodes(l.name, NAME - |l.name|);
  }

  lemma NamesDistinct(l: Layout)
    requires WellFormed(l)
    ensures forall j, k :: 0 <= j < k < |l.entries| ==> Ascii(l.entries[j].name) != Ascii(l.entries[k].name)
  {
    forall j, k | 0 <= j < k < |l.entries|
      ensures Ascii(l.entries[j].name) != Ascii(l.entries[k].name)
    {
      if Ascii(l.entries[j].name) == Ascii(l.entries[k].name) {
        AsciiInjective(l.entries[j].name, l.entries[k].name);
      }
    }
  }

  lemma DictionaryBounded(l: Layout)
    requires WellFormed(l)
    ensures Bounded(Dictionary(l.entries), l.total)
  {
    NamesDistinct(l);
    DictionaryExact(l.entries, |l.entries|);
    assert l.entries[..|l.entries|] == l.entries;
  }

  /** An image whose bytes at i are a layout has a sane map there. */
  lemma LayoutIsSane(data: seq<byte>, i: nat, l: Layout)
    requires WellFormed(l) && i + |Encode(l)| <= |data| && data[i..i + |Encode(l)|] == Encode(l)
    ensures SaneAt(data, i) && AreasAt(data, i) == Dictionary(l.entries)
  {
    var n := |Encode(l)|;
    SubSlice(data, i, i + n, 0, HEADER);
    SubSlice(data, i, i + n, HEADER, n);
    assert Encode(l)[..HEADER] == EncodeHeader(l) && Encode(l)[HEADER..] == EncodeEntries(l.entries, l.total);
    HeaderDecodes(data, i, l);
    TableBytes(data, i + HEADER, l);
    TableDecodes(data, i + HEADER, l.entries, |l.entries|);
    assert l.entries[..|l.entries|] == l.entries;
    DictionaryBounded(l);
  }

  /** A layout written at the conventional offset parses back to exactly its areas,
      whatever the other bytes of the image are. */
  lemma FmapRoundTrip(data: seq<byte>, l: Layout, r: Option<map<string, Area>>)
    requires WellFormed(l)
    requires FMAP_EXPECTED_OFFSET + |Encode(l)| <= |data|
    requires data[FMAP_EXPECTED_OFFSET..FMAP_EXPECTED_OFFSET + |Encode(l)|] == Encode(l)
    requires IsFmap(data, r)
    ensures r.Some?
    ensures forall j :: 0 <= j < |l.entries| ==>
      Ascii(l.entries[j].name) in r.value
      && r.value[Ascii(l.entries[j].name)] == Area(l.entries[j].off, l.entries[j].size)
    ensures forall name :: name in r.value ==> Listed(l.entries, name)
  {
    LayoutIsSane(data, FMAP_EXPECTED_OFFSET, l);
    NamesDistinct(l);
    DictionaryExact(l.entries, |l.entries|);
    assert l.entries[..|l.entries|] == l.entries;
  }
}
