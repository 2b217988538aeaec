/** The template reconciler: renames, upserts, detaches, key merge and attaches,
    against the controller's database. */
module Reconcile {
  import opened Results
  import Hostapd

  // ------------------------------------------------------------- the database

  datatype File = File(path: string, contents: string)

  /** A template's configuration, which may have no files list; `mentions` says that
      the text of the rest of it contains the path of authorized_keys. */
  datatype Config = Config(files: Option<seq<File>>, mentions: bool)

  datatype Template = Template(org: nat, name: string, kind: string, config: Config, values: nat, isDefault: bool)

  /** Templates are rows, identified by position; devices of the organization are
      known by name; a device's config holds the templates attached to it. */
  datatype Db = Db(templates: seq<Template>, devices: map<string, nat>, configs: map<nat, set<nat>>)

  /** Which rows full_clean accepts: a template as it is, a device's config with the
      templates attached to it. */
  datatype Checks = Checks(template: Template -> bool, config: (nat, seq<Template>, set<nat>) -> bool)

  const ORG: nat := 0
  const KIND := "generic netjsonconfig.OpenWrt"
  const AK_PATH := "/etc/dropbear/authorized_keys"

  const BASE := "ansells-aps-base"
  const PUCK := "ansells-aps-puck"
  const TENWRT := "ansells-aps-tenwrt"
  const MESH := "ansells-aps-mesh"
  const PRESENCE := "ansells-presence"
  const TENWRT_DEVICE := "tenwrt"

  const RENAMES: seq<(string, string)> := [("gwifi-base", BASE), ("gwifi-aps", PUCK), ("gwifi-mesh-aps", MESH)]

  /** One template to upsert; None leaves the default values of an old row alone. */
  datatype Spec = Spec(name: string, config: Config, values: Option<nat>)

  datatype Site = Site(base: Config, active: Config, tenwrt: Config, preserved: Config, presence: Config,
                       defaults: nat, adminKeys: seq<string>, devices: seq<string>, checks: Checks)
  {
    /** In the order of the script. */
    function Specs(): seq<Spec> {
      [Spec(BASE, base, None), Spec(PUCK, active, Some(defaults)), Spec(TENWRT, tenwrt, Some(defaults)),
       Spec(MESH, preserved, Some(defaults)), Spec(PRESENCE, presence, None)]
    }
  }

  lemma NamesDiffer()
    ensures BASE != PUCK && BASE != TENWRT && BASE != MESH && BASE != PRESENCE
    ensures PUCK != TENWRT && PUCK != MESH && PUCK != PRESENCE
    ensures TENWRT != MESH && TENWRT != PRESENCE && MESH != PRESENCE
  {
    assert BASE[12] == 'b' && PUCK[12] == 'p' && TENWRT[12] == 't' && MESH[12] == 'm';
    assert PRESENCE[8] == 'p' && BASE[8] == 'a' && PUCK[8] == 'a' && TENWRT[8] == 'a' && MESH[8] == 'a';
  }

  // ------------------------------------------------------------------ queries

  datatype Query = ByName(name: string) | SshKeys

  predicate Hits(q: Query, t: Template)
  {
    match q
    case ByName(name) => t.org == ORG && t.name == name
    case SshKeys => t.isDefault &&
                    (t.config.mentions
                     || (t.config.files.Some? && exists f :: f in t.config.files.value && f.path == AK_PATH))
  }

  /** The rows that a query finds. */
  function Found(ts: seq<Template>, q: Query): set<nat>
  {
    set i: nat | i < |ts| && Hits(q, ts[i])
  }

  /** The first row found, or the row after the last. */
  function First(ts: seq<Template>, q: Query): (i: nat)
    ensures i <= |ts| && (Found(ts, q) != {} ==> i in Found(ts, q))
  {
    if ts == [] || Hits(q, ts[0]) then 0
    else
      assert forall i :: i in Found(ts, q) ==> i - 1 in Found(ts[1..], q);
      1 + First(ts[1..], q)
  }

  lemma OneFound(ts: seq<Template>, q: Query, i: nat)
    requires |Found(ts, q)| == 1 && i in Found(ts, q)
    ensures Found(ts, q) == {i} && First(ts, q) == i
  {
    var rest := Found(ts, q) - {i};
    assert |rest| == 0;
    assert Found(ts, q) == {i} + rest;
  }

  lemma OneIfSingle(ts: seq<Template>, q: Query, i: nat)
    requires Found(ts, q) == {i}
    ensures |Found(ts, q)| == 1 && First(ts, q) == i
  {
  }

  // -------------------------------------------------------------------- steps

  /** How a step ends; an aborted script leaves what it has done so far. */
  datatype Outcome = Done(db: Db) | Aborted(db: Db)

  /** A row is renamed if it is the only one with the old name and none has the new
      one. Its position, and so every attachment, stays. */
  function Rename(v: Checks, db: Db, old': string, new': string): Outcome
  {
    var rows := Found(db.templates, ByName(old'));
    if rows == {} || Found(db.templates, ByName(new')) != {} then Done(db)
    else if |rows| != 1 then Aborted(db)
    else
      var i := First(db.templates, ByName(old'));
      var t := db.templates[i].(name := new');
      if v.template(t) then Done(db.(templates := db.templates[i := t])) else Aborted(db)
  }

  function RenameAll(v: Checks, db: Db, n: nat): Outcome
    requires n <= |RENAMES|
  {
    if n == 0 then Done(db)
    else
      match RenameAll(v, db, n - 1)
      case Aborted(d) => Aborted(d)
      case Done(d) => Rename(v, d, RENAMES[n - 1].0, RENAMES[n - 1].1)
  }

  /** The row as an upsert leaves it. */
  function Updated(t: Template, s: Spec): Template
  {
    t.(kind := KIND, config := s.config, isDefault := false, values := s.values.GetOr(t.values))
  }

  function Created(s: Spec): Template
  {
    Template(ORG, s.name, KIND, s.config, s.values.GetOr(0), false)
  }

  /** `update_or_create` on (organization, name), which saves, and then full_clean. */
  function Upsert(v: Checks, db: Db, s: Spec): Outcome
  {
    var rows := Found(db.templates, ByName(s.name));
    if |rows| > 1 then Aborted(db)
    else
      var i := First(db.templates, ByName(s.name));
      var t := if rows == {} then Created(s) else Updated(db.templates[i], s);
      var d := db.(templates := if rows == {} then db.templates + [t] else db.templates[i := t]);
      if v.template(t) then Done(d) else Aborted(d)
  }

  function UpsertAll(v: Checks, db: Db, specs: seq<Spec>): Outcome
  {
    if specs == [] then Done(db)
    else
      match UpsertAll(v, db, specs[..|specs| - 1])
      case Aborted(d) => Aborted(d)
      case Done(d) => Upsert(v, d, specs[|specs| - 1])
  }

  /** A template comes off every device. */
  function Detach(db: Db, id: nat): Db
  {
    db.(configs := map c | c in db.configs :: db.configs[c] - {id})
  }

  predicate Blank(line: string)
  {
    forall i :: 0 <= i < |line| ==> Hostapd.IsSpace(line[i])
  }

  function NonBlank(lines: seq<string>): (r: seq<string>)
    ensures forall l :: l in r <==> l in lines && !Blank(l)
  {
    if lines == [] then []
    else if Blank(lines[0]) then NonBlank(lines[1..])
    else [lines[0]] + NonBlank(lines[1..])
  }

  /** The admin keys that are missing go to the end. */
  function MergeKeys(lines: seq<string>, keys: seq<string>): (r: seq<string>)
    ensures lines <= r
    ensures forall k :: k in keys ==> k in r
    ensures forall l :: l in r ==> l in lines || l in keys
    decreases |keys|
  {
    if keys == [] then lines
    else
      assert keys == [keys[0]] + keys[1..];
      if keys[0] in lines then MergeKeys(lines, keys[1..])
      else
        assert (lines + [keys[0]])[|lines|] == keys[0];
        MergeKeys(lines + [keys[0]], keys[1..])
  }

  /** "\n".join(lines) + "\n" */
  function Rewritten(lines: seq<string>): string
  {
    if lines == [] then "\n" else Hostapd.Lines(lines)
  }

  /** The lines of a file that are not blank. */
  function KeyLines(f: File): seq<string>
  {
    NonBlank(Hostapd.SplitLines(f.contents))
  }

  function MergeFile(f: File, keys: seq<string>): File
  {
    if f.path != AK_PATH then f else f.(contents := Rewritten(MergeKeys(KeyLines(f), keys)))
  }

  predicate FileHasKeys(f: File, keys: seq<string>)
  {
    f.path == AK_PATH ==> forall k :: 0 <= k < |keys| ==> keys[k] in KeyLines(f)
  }

  /** No authorized_keys file of the template lacks a key. */
  predicate HasKeys(files: seq<File>, keys: seq<string>)
  {
    forall i :: 0 <= i < |files| ==> FileHasKeys(files[i], keys)
  }

  predicate TemplateHasKeys(t: Template, keys: seq<string>)
  {
    t.config.files.Some? && HasKeys(t.config.files.value, keys)
  }

  function MergeAll(files: seq<File>, keys: seq<string>): (r: seq<File>)
    ensures |r| == |files|
  {
    seq(|files|, i requires 0 <= i < |files| => MergeFile(files[i], keys))
  }

  /** The SSH Keys template must exist, once, with files; it is saved only if a key was
      missing. */
  function Ssh(v: Checks, db: Db, keys: seq<string>): Outcome
  {
    if |Found(db.templates, SshKeys)| != 1 then Aborted(db)
    else
      var i := First(db.templates, SshKeys);
      var t := db.templates[i];
      if t.config.files.None? then Aborted(db)
      else if HasKeys(t.config.files.value, keys) then Done(db)
      else
        var t' := t.(config := t.config.(files := Some(MergeAll(t.config.files.value, keys))));
        if v.template(t') then Done(db.(templates := db.templates[i := t'])) else Aborted(db)
  }

  /** The rows that the script works with from here on. */
  datatype Ids = Ids(base: nat, puck: nat, tenwrt: nat, mesh: nat, presence: nat, ssh: nat)

  function Want(ids: Ids, device: string): set<nat>
  {
    if device == TENWRT_DEVICE then {ids.base, ids.tenwrt, ids.ssh}
    else {ids.base, ids.puck, ids.presence, ids.ssh}
  }

  function Unwanted(ids: Ids, device: string): set<nat>
  {
    if device == TENWRT_DEVICE then {ids.puck, ids.presence} else {}
  }

  /** The templates of a config that is created for a device: the default ones. */
  function Defaults(ts: seq<Template>): set<nat>
  {
    set i: nat | i < |ts| && ts[i].isDefault
  }

  /** A device's templates; attachments are saved at once, before full_clean. */
  function Attach(v: Checks, db: Db, ids: Ids, device: string): Outcome
  {
    if device !in db.devices then Done(db)
    else
      var d := db.devices[device];
      var c := if d in db.configs then db.configs[d] else Defaults(db.templates);
      var c' := c + Want(ids, device) - Unwanted(ids, device);
      var db' := db.(configs := db.configs[d := c']);
      if v.config(d, db.templates, c') then Done(db') else Aborted(db')
  }

  function AttachAll(v: Checks, db: Db, ids: Ids, devices: seq<string>): Outcome
  {
    if devices == [] then Done(db)
    else
      match AttachAll(v, db, ids, devices[..|devices| - 1])
      case Aborted(d) => Aborted(d)
      case Done(d) => Attach(v, d, ids, devices[|devices| - 1])
  }

  // --------------------------------------------------------- the whole script

  function Row(ts: seq<Template>, name: string): nat
  {
    First(ts, ByName(name))
  }

  function IdsOf(ts: seq<Template>): Ids
  {
    Ids(Row(ts, BASE), Row(ts, PUCK), Row(ts, TENWRT), Row(ts, MESH), Row(ts, PRESENCE), First(ts, SshKeys))
  }

  /** The row is what the spec asks for. */
  predicate RowIs(t: Template, s: Spec)
  {
    t.org == ORG && t.name == s.name && t.kind == KIND && t.config == s.config && !t.isDefault
    && (s.values.Some? ==> t.values == s.values.value)
  }

  /** One row has the spec's name; it is what the spec asks for, and is clean. */
  ghost predicate SpecHolds(v: Checks, ts: seq<Template>, s: Spec)
  {
    && |Found(ts, ByName(s.name))| == 1
    && RowIs(ts[Row(ts, s.name)], s) && v.template(ts[Row(ts, s.name)])
  }

  lemma FoundReplaced(ts: seq<Template>, i: nat, t: Template, q: Query)
    requires i < |ts|
    ensures Found(ts[i := t], q) == if Hits(q, t) then Found(ts, q) + {i} else Found(ts, q) - {i}
  {
  }

  lemma FoundAppended(ts: seq<Template>, t: Template, q: Query)
    ensures Found(ts + [t], q) == if Hits(q, t) then Found(ts, q) + {|ts|} else Found(ts, q)
  {
  }

  lemma SpecHoldsAt(v: Checks, ts: seq<Template>, s: Spec, i: nat)
    requires Found(ts, ByName(s.name)) == {i} && RowIs(ts[i], s) && v.template(ts[i])
    ensures SpecHolds(v, ts, s) && Row(ts, s.name) == i
  {
    OneIfSingle(ts, ByName(s.name), i);
  }

  lemma RowUnique(v: Checks, ts: seq<Template>, s: Spec)
    requires SpecHolds(v, ts, s)
    ensures Found(ts, ByName(s.name)) == {Row(ts, s.name)}
  {
    OneFound(ts, ByName(s.name), Row(ts, s.name));
  }

  /** No row of another name has changed, come or gone. */
  ghost predicate OthersKept(ts: seq<Template>, ts': seq<Template>, name: string)
  {
    && |ts| <= |ts'|
    && (forall i {:trigger ts'[i]} :: 0 <= i < |ts| ==>
          if Hits(ByName(name), ts[i]) then Hits(ByName(name), ts'[i]) else ts'[i] == ts[i])
    && forall i {:trigger ts'[i]} :: |ts| <= i < |ts'| ==> Hits(ByName(name), ts'[i])
  }

  lemma OthersFound(ts: seq<Template>, ts': seq<Template>, name: string, other: string)
    requires OthersKept(ts, ts', name) && other != name
    ensures Found(ts', ByName(other)) == Found(ts, ByName(other))
  {
  }

  /** An upsert, finished or not, leaves the rows of other names alone. */
  lemma UpsertKeeps(v: Checks, db: Db, s: Spec)
    ensures var d := Upsert(v, db, s).db;
      OthersKept(db.templates, d.templates, s.name) && d.devices == db.devices && d.configs == db.configs
  {
  }

  /** A finished upsert makes its spec hold. */
  lemma UpsertMakes(v: Checks, db: Db, s: Spec)
    requires Upsert(v, db, s).Done?
    ensures SpecHolds(v, Upsert(v, db, s).db.templates, s)
  {
    var q := ByName(s.name);
    if Found(db.templates, q) == {} {
      FoundAppended(db.templates, Created(s), q);
      SpecHoldsAt(v, Upsert(v, db, s).db.templates, s, |db.templates|);
    } else {
      var i := First(db.templates, q);
      OneIsOne(Found(db.templates, q));
      OneFound(db.templates, q, i);
      FoundReplaced(db.templates, i, Updated(db.templates[i], s), q);
      SpecHoldsAt(v, Upsert(v, db, s).db.templates, s, i);
    }
  }

  lemma OneIsOne(rows: set<nat>)
    requires rows != {} && |rows| <= 1
    ensures |rows| == 1
  {
  }

  /** ... and keeps the specs of other names, in the same rows. */
  lemma SpecStays(v: Checks, db: Db, s: Spec, s': Spec)
    requires Upsert(v, db, s).Done? && s'.name != s.name && SpecHolds(v, db.templates, s')
    ensures SpecHolds(v, Upsert(v, db, s).db.templates, s')
    ensures Row(Upsert(v, db, s).db.templates, s'.name) == Row(db.templates, s'.name)
  {
    var d, j := Upsert(v, db, s).db, Row(db.templates, s'.name);
    UpsertKeeps(v, db, s);
    RowUnique(v, db.templates, s');
    OthersFound(db.templates, d.templates, s.name, s'.name);
    SpecHoldsAt(v, d.templates, s', j);
  }

  /** An upsert whose spec already holds changes nothing. */
  lemma UpsertIdle(v: Checks, db: Db, s: Spec)
    requires SpecHolds(v, db.templates, s)
    ensures Upsert(v, db, s) == Done(db)
  {
    var i := Row(db.templates, s.name);
    assert Updated(db.templates[i], s) == db.templates[i];
    assert db.templates[i := db.templates[i]] == db.templates;
  }

  ghost predicate DistinctNames(specs: seq<Spec>)
  {
    forall j, k :: 0 <= j < k < |specs| ==> specs[j].name != specs[k].name
  }

  ghost predicate AllHold(v: Checks, ts: seq<Template>, specs: seq<Spec>)
  {
    forall k :: 0 <= k < |specs| ==> SpecHolds(v, ts, specs[k])
  }

  lemma {:induction false} UpsertAllMakes(v: Checks, db: Db, specs: seq<Spec>)
    requires DistinctNames(specs) && UpsertAll(v, db, specs).Done?
    ensures var d := UpsertAll(v, db, specs).db;
      AllHold(v, d.templates, specs) && d.devices == db.devices && d.configs == db.configs
  {
    if specs != [] {
      var n := |specs| - 1;
      UpsertAllMakes(v, db, specs[..n]);
      var d := UpsertAll(v, db, specs[..n]).db;
      UpsertMakes(v, d, specs[n]);
      forall k | 0 <= k < n
        ensures SpecHolds(v, Upsert(v, d, specs[n]).db.templates, specs[k])
      {
        assert specs[..n][k] == specs[k];
        SpecStays(v, d, specs[n], specs[k]);
      }
    }
  }

  lemma {:induction false} UpsertAllIdle(v: Checks, db: Db, specs: seq<Spec>)
    requires AllHold(v, db.templates, specs)
    ensures UpsertAll(v, db, specs) == Done(db)
  {
    if specs != [] {
      var n := |specs| - 1;
      assert forall k :: 0 <= k < n ==> specs[..n][k] == specs[k];
      UpsertAllIdle(v, db, specs[..n]);
      UpsertIdle(v, db, specs[n]);
    }
  }

  // ----------------------------------------------------------------- ssh keys

  predicate GoodKey(key: string)
  {
    !Blank(key) && Hostapd.Unbroken(key)
  }

  predicate GoodKeys(keys: seq<string>)
  {
    forall k :: 0 <= k < |keys| ==> GoodKey(keys[k])
  }

  /** The appended keys are new, and each is there once. */
  lemma {:induction false} MergeKeysNew(lines: seq<string>, keys: seq<string>, i: nat)
    requires |lines| <= i < |MergeKeys(lines, keys)|
    ensures MergeKeys(lines, keys)[i] !in MergeKeys(lines, keys)[..i]
    decreases |keys|
  {
    var lines' := if keys[0] in lines then lines else lines + [keys[0]];
    var r := MergeKeys(lines', keys[1..]);
    assert MergeKeys(lines, keys) == r && lines' <= r;
    if i < |lines'| {
      assert r[..i] == lines && r[i] == lines'[i] == keys[0];
    } else {
      MergeKeysNew(lines', keys[1..], i);
    }
  }

  /** x is among the keys before y is. */
  ghost predicate Before(keys: seq<string>, x: string, y: string)
  {
    exists p :: 0 <= p < |keys| && keys[p] == x && y !in keys[..p]
  }

  /** ... and they are in the order of the keys. */
  lemma {:induction false} MergeKeysOrder(lines: seq<string>, keys: seq<string>, i: nat, j: nat)
    requires |lines| <= i < j < |MergeKeys(lines, keys)|
    ensures Before(keys, MergeKeys(lines, keys)[i], MergeKeys(lines, keys)[j])
    decreases |keys|
  {
    var rest := keys[1..];
    var lines' := if keys[0] in lines then lines else lines + [keys[0]];
    var r := MergeKeys(lines', rest);
    assert MergeKeys(lines, keys) == r && lines' <= r && keys[0] in lines';
    if i < |lines'| {
      assert r[i] == lines'[i] == keys[0] && keys[..0] == [];
      assert Before(keys, r[i], r[j]);
    } else {
      MergeKeysOrder(lines', rest, i, j);
      MergeKeysNew(lines', rest, j);
      var q :| 0 <= q < |rest| && rest[q] == r[i] && r[j] !in rest[..q];
      assert lines' <= r[..j];
      assert keys[..q + 1] == [keys[0]] + rest[..q] && keys[q + 1] == r[i];
    }
  }

  /** Dropping blank lines keeps the others and their order. */
  lemma {:induction false} NonBlankJoins(a: seq<string>, b: seq<string>)
    ensures NonBlank(a + b) == NonBlank(a) + NonBlank(b)
  {
    if a == [] {
      assert a + b == b;
    } else {
      assert (a + b)[1..] == a[1..] + b;
      NonBlankJoins(a[1..], b);
    }
  }

  lemma {:induction false} NonBlankAll(lines: seq<string>)
    requires forall k :: 0 <= k < |lines| ==> !Blank(lines[k])
    ensures NonBlank(lines) == lines
  {
    if lines != [] {
      NonBlankAll(lines[1..]);
    }
  }

  /** A merged file is read back as its merged lines. */
  lemma MergedLines(f: File, keys: seq<string>)
    requires f.path == AK_PATH && GoodKeys(keys)
    ensures KeyLines(MergeFile(f, keys)) == MergeKeys(KeyLines(f), keys)
  {
    var merged := MergeKeys(KeyLines(f), keys);
    Hostapd.SplitUnbroken(f.contents);
    forall k | 0 <= k < |merged|
      ensures Hostapd.Unbroken(merged[k]) && !Blank(merged[k])
    {
      assert merged[k] in merged;
    }
    if merged != [] {
      Hostapd.SplitLinesExact(merged);
      NonBlankAll(merged);
    } else {
      Hostapd.SplitLinesExact([""]);
      assert Hostapd.Lines([""]) == "\n";
    }
  }

  /** After a merge every key is a line of its own, behind all earlier ones. */
  lemma MergeFileHasKeys(f: File, keys: seq<string>)
    requires GoodKeys(keys)
    ensures FileHasKeys(MergeFile(f, keys), keys)
    ensures LinesKept(f, MergeFile(f, keys), keys)
  {
    if f.path == AK_PATH {
      MergedLines(f, keys);
      forall k | 0 <= k < |keys|
        ensures keys[k] in KeyLines(MergeFile(f, keys))
      {
        assert keys[k] in MergeKeys(KeyLines(f), keys);
      }
      AppendedAreKeys(KeyLines(f), keys);
    }
  }

  lemma AppendedAreKeys(lines: seq<string>, keys: seq<string>)
    ensures forall l :: l in MergeKeys(lines, keys)[|lines|..] ==> l in keys
  {
    var r := MergeKeys(lines, keys);
    forall l | l in r[|lines|..]
      ensures l in keys
    {
      var i :| |lines| <= i < |r| && r[i] == l;
      MergeKeysNew(lines, keys, i);
      assert l !in r[..i] && lines <= r[..i];
    }
  }

  /** ... and no other keys will do: a blank one is dropped and a broken one is split. */
  lemma KeysStayIff(keys: seq<string>)
    ensures (forall f: File :: FileHasKeys(MergeFile(f, keys), keys)) <==> GoodKeys(keys)
  {
    if GoodKeys(keys) {
      forall f: File
        ensures FileHasKeys(MergeFile(f, keys), keys)
      {
        MergeFileHasKeys(f, keys);
      }
    } else {
      var k :| 0 <= k < |keys| && !GoodKey(keys[k]);
      var f := File(AK_PATH, "");
      Hostapd.SplitUnbroken(MergeFile(f, keys).contents);
      assert keys[k] !in KeyLines(MergeFile(f, keys));
      assert !FileHasKeys(MergeFile(f, keys), keys);
    }
  }

  lemma OneKey(text: string, lines: seq<string>, key: string)
    requires Hostapd.SplitLines(text) == lines && NonBlank(lines) == lines && key !in lines
    ensures MergeFile(File(AK_PATH, text), [key]).contents == Hostapd.Lines(lines + [key])
  {
    assert MergeKeys(lines, [key]) == MergeKeys(lines + [key], []);
  }

  lemma {:induction false} LinesLength(lines: seq<string>, key: string)
    ensures Hostapd.Lines(lines + [key]) == Hostapd.Lines(lines) + key + "\n"
  {
    if lines == [] {
      assert [] + [key] == [key] && [key][1..] == [];
    } else {
      assert (lines + [key])[1..] == lines[1..] + [key];
      LinesLength(lines[1..], key);
    }
  }

  /** A key of two lines makes the file grow: the second run finds the lines and not the
      key. */
  lemma BrokenKeyGrows(x: string, y: string)
    requires GoodKey(x) && GoodKey(y)
    ensures var key := x + "\n" + y;
      var once := MergeFile(File(AK_PATH, ""), [key]);
      && once.contents == Hostapd.Lines([x, y])
      && MergeFile(once, [key]).contents == Hostapd.Lines([x, y, key])
  {
    FirstRun(x, y);
    SecondRun(x, y);
  }

  lemma FirstRun(x: string, y: string)
    ensures MergeFile(File(AK_PATH, ""), [x + "\n" + y]).contents == Hostapd.Lines([x, y])
  {
    var key := x + "\n" + y;
    OneKey("", [], key);
    TwoLines(x, y);
    assert [] + [key] == [key];
  }

  lemma SecondRun(x: string, y: string)
    requires GoodKey(x) && GoodKey(y)
    ensures MergeFile(File(AK_PATH, Hostapd.Lines([x, y])), [x + "\n" + y]).contents
            == Hostapd.Lines([x, y, x + "\n" + y])
  {
    var key := x + "\n" + y;
    Hostapd.SplitLinesExact([x, y]);
    NonBlankAll([x, y]);
    BrokenIsNeither(x, y);
    OneKey(Hostapd.Lines([x, y]), [x, y], key);
    assert [x, y] + [key] == [x, y, key];
  }

  lemma BrokenIsNeither(x: string, y: string)
    requires Hostapd.Unbroken(x) && Hostapd.Unbroken(y)
    ensures x + "\n" + y != x && x + "\n" + y != y
  {
    assert (x + "\n" + y)[|x|] == '\n' && Hostapd.IsBreak('\n');
  }

  lemma TwoLines(x: string, y: string)
    ensures Hostapd.Lines([x + "\n" + y]) == Hostapd.Lines([x, y])
  {
    LinesLength([], x + "\n" + y);
    LinesLength([], x);
    LinesLength([x], y);
    assert [] + [x] == [x] && [x] + [y] == [x, y] && [] + [x + "\n" + y] == [x + "\n" + y];
  }

  /** The nonblank lines of f come first in f', and only keys follow; another file is as it
      was. */
  ghost predicate LinesKept(f: File, f': File, keys: seq<string>)
  {
    && f'.path == f.path && (f.path != "/etc/dropbear/authorized_keys" ==> f' == f)
    && KeyLines(f) <= KeyLines(f') && forall l :: l in KeyLines(f')[|KeyLines(f)|..] ==> l in keys
  }

  ghost predicate FilesKept(c: Config, c': Config, keys: seq<string>)
  {
    && c'.mentions == c.mentions && c.files.Some? && c'.files.Some? && |c'.files.value| == |c.files.value|
    && forall i :: 0 <= i < |c.files.value| ==> LinesKept(c.files.value[i], c'.files.value[i], keys)
  }

  /** The one SSH Keys row has every key, no earlier key line is gone, and no other row
      has changed. */
  ghost predicate KeysMerged(db: Db, d: Db, keys: seq<string>)
  {
    var j := First(db.templates, SshKeys);
    && d.devices == db.devices && d.configs == db.configs && |d.templates| == |db.templates|
    && Found(d.templates, SshKeys) == {j} && j < |d.templates| && TemplateHasKeys(d.templates[j], keys)
    && (forall i :: 0 <= i < |db.templates| && i != j ==> d.templates[i] == db.templates[i])
    && d.templates[j] == db.templates[j].(config := d.templates[j].config)
    && FilesKept(db.templates[j].config, d.templates[j].config, keys)
  }

  lemma MergeAllKeeps(files: seq<File>, keys: seq<string>)
    requires GoodKeys(keys)
    ensures HasKeys(MergeAll(files, keys), keys)
    ensures forall i :: 0 <= i < |files| ==> LinesKept(files[i], MergeAll(files, keys)[i], keys)
  {
    forall i | 0 <= i < |files|
      ensures FileHasKeys(MergeAll(files, keys)[i], keys)
      ensures LinesKept(files[i], MergeAll(files, keys)[i], keys)
    {
      MergeFileHasKeys(files[i], keys);
    }
  }

  lemma MergeAllHits(t: Template, keys: seq<string>)
    requires Hits(SshKeys, t) && t.config.files.Some?
    ensures Hits(SshKeys, t.(config := t.config.(files := Some(MergeAll(t.config.files.value, keys)))))
  {
    var files := t.config.files.value;
    if exists f :: f in files && f.path == AK_PATH {
      var i :| 0 <= i < |files| && files[i].path == AK_PATH;
      assert MergeAll(files, keys)[i].path == AK_PATH;
    }
  }

  lemma FilesMerged(c: Config, keys: seq<string>)
    requires GoodKeys(keys) && c.files.Some?
    ensures FilesKept(c, c, keys) && FilesKept(c, c.(files := Some(MergeAll(c.files.value, keys))), keys)
    ensures HasKeys(MergeAll(c.files.value, keys), keys)
  {
    MergeAllKeeps(c.files.value, keys);
  }

  /** The SSH Keys row is replaced by one with other files. */
  lemma RowMerged(db: Db, d: Db, keys: seq<string>, j: nat, t': Template)
    requires Found(db.templates, SshKeys) == {j} && First(db.templates, SshKeys) == j
    requires d == db.(templates := db.templates[j := t']) && Hits(SshKeys, t') && TemplateHasKeys(t', keys)
    requires t' == db.templates[j].(config := t'.config) && FilesKept(db.templates[j].config, t'.config, keys)
    ensures KeysMerged(db, d, keys)
  {
    FoundReplaced(db.templates, j, t', SshKeys);
  }

  /** What the step does when it ends. */
  lemma SshMakes(v: Checks, db: Db, keys: seq<string>)
    requires GoodKeys(keys) && Ssh(v, db, keys).Done?
    ensures KeysMerged(db, Ssh(v, db, keys).db, keys)
  {
    var j := First(db.templates, SshKeys);
    var t := db.templates[j];
    OneFound(db.templates, SshKeys, j);
    FilesMerged(t.config, keys);
    if HasKeys(t.config.files.value, keys) {
      assert db.templates[j := t] == db.templates;
      RowMerged(db, db, keys, j, t);
    } else {
      var t' := t.(config := t.config.(files := Some(MergeAll(t.config.files.value, keys))));
      MergeAllHits(t, keys);
      RowMerged(db, Ssh(v, db, keys).db, keys, j, t');
    }
  }

  lemma SshKeepsSpec(v: Checks, db: Db, keys: seq<string>, s: Spec)
    requires GoodKeys(keys) && Ssh(v, db, keys).Done? && SpecHolds(v, db.templates, s)
    ensures SpecHolds(v, Ssh(v, db, keys).db.templates, s)
    ensures Row(Ssh(v, db, keys).db.templates, s.name) == Row(db.templates, s.name)
    ensures Row(db.templates, s.name) != First(db.templates, SshKeys)
  {
    SshMakes(v, db, keys);
    OwnRowNotSsh(v, db.templates, s);
    MergeKeepsSpec(v, db, Ssh(v, db, keys).db, keys, s);
  }

  lemma MergeKeepsSpec(v: Checks, db: Db, d: Db, keys: seq<string>, s: Spec)
    requires KeysMerged(db, d, keys) && SpecHolds(v, db.templates, s)
    requires Row(db.templates, s.name) != First(db.templates, SshKeys)
    ensures SpecHolds(v, d.templates, s) && Row(d.templates, s.name) == Row(db.templates, s.name)
  {
    RowUnique(v, db.templates, s);
    SameNames(db.templates, d.templates, s.name);
    SpecHoldsAt(v, d.templates, s, Row(db.templates, s.name));
  }

  // ------------------------------------------------------------------- attach

  /** Device names are names of different devices. */
  ghost predicate DistinctDevices(db: Db)
  {
    forall n, n' :: n in db.devices && n' in db.devices && n != n' ==> db.devices[n] != db.devices[n']
  }

  /** The device's config has all it wants and nothing it must not have, and is clean. */
  predicate Attached(v: Checks, db: Db, ids: Ids, device: string)
  {
    device in db.devices ==>
      var d := db.devices[device];
      && d in db.configs && Want(ids, device) <= db.configs[d] && Unwanted(ids, device) !! db.configs[d]
      && v.config(d, db.templates, db.configs[d])
  }

  predicate DistinctIds(ids: Ids)
  {
    && ids.base != ids.puck && ids.base != ids.tenwrt && ids.base != ids.mesh && ids.base != ids.presence
    && ids.puck != ids.tenwrt && ids.puck != ids.mesh && ids.puck != ids.presence
    && ids.tenwrt != ids.mesh && ids.tenwrt != ids.presence && ids.mesh != ids.presence
    && ids.ssh !in {ids.base, ids.puck, ids.tenwrt, ids.mesh, ids.presence}
  }

  ghost predicate OnNoDevice(db: Db, id: nat)
  {
    forall c :: c in db.configs ==> id !in db.configs[c]
  }

  lemma AttachMakes(v: Checks, db: Db, ids: Ids, device: string, other: string)
    requires DistinctIds(ids) && DistinctDevices(db) && Attach(v, db, ids, device).Done?
    ensures var d := Attach(v, db, ids, device).db;
      && d.templates == db.templates && d.devices == db.devices && Attached(v, d, ids, device)
      && (Attached(v, db, ids, other) ==> Attached(v, d, ids, other))
      && (OnNoDevice(db, ids.mesh) && ids.mesh !in Defaults(db.templates) ==> OnNoDevice(d, ids.mesh))
  {
  }

  lemma {:induction false} AttachAllMakes(v: Checks, db: Db, ids: Ids, devices: seq<string>)
    requires DistinctIds(ids) && DistinctDevices(db) && OnNoDevice(db, ids.mesh) && ids.mesh !in Defaults(db.templates)
    requires AttachAll(v, db, ids, devices).Done?
    ensures var d := AttachAll(v, db, ids, devices).db;
      && d.templates == db.templates && d.devices == db.devices
      && (forall k :: 0 <= k < |devices| ==> Attached(v, d, ids, devices[k]))
      && OnNoDevice(d, ids.mesh)
  {
    if devices != [] {
      var n := |devices| - 1;
      AttachAllMakes(v, db, ids, devices[..n]);
      var d := AttachAll(v, db, ids, devices[..n]).db;
      AttachMakes(v, d, ids, devices[n], devices[n]);
      forall k | 0 <= k < n
        ensures Attached(v, Attach(v, d, ids, devices[n]).db, ids, devices[k])
      {
        assert devices[..n][k] == devices[k];
        AttachMakes(v, d, ids, devices[n], devices[k]);
      }
    }
  }

  lemma AttachIdle(v: Checks, db: Db, ids: Ids, device: string)
    requires Attached(v, db, ids, device)
    ensures Attach(v, db, ids, device) == Done(db)
  {
    if device in db.devices {
      var d := db.devices[device];
      assert db.configs[d] + Want(ids, device) - Unwanted(ids, device) == db.configs[d];
      assert db.configs[d := db.configs[d]] == db.configs;
    }
  }

  lemma {:induction false} AttachAllIdle(v: Checks, db: Db, ids: Ids, devices: seq<string>)
    requires forall k :: 0 <= k < |devices| ==> Attached(v, db, ids, devices[k])
    ensures AttachAll(v, db, ids, devices) == Done(db)
  {
    if devices != [] {
      var n := |devices| - 1;
      assert forall k :: 0 <= k < n ==> devices[..n][k] == devices[k];
      AttachAllIdle(v, db, ids, devices[..n]);
      AttachIdle(v, db, ids, devices[n]);
    }
  }

  // ----------------------------------------------------------------- the script

  /** Renames, upserts and the detach: all that comes before the SSH keys. */
  function BeforeKeys(db: Db, site: Site): Outcome
  {
    match RenameAll(site.checks, db, |RENAMES|)
    case Aborted(d) => Aborted(d)
    case Done(d) =>
      match UpsertAll(site.checks, d, site.Specs()[..4])
      case Aborted(d) => Aborted(d)
      case Done(d) => Upsert(site.checks, Detach(d, Row(d.templates, MESH)), site.Specs()[4])
  }

  function Finish(db: Db, site: Site): Outcome
  {
    match Ssh(site.checks, db, site.adminKeys)
    case Aborted(d) => Aborted(d)
    case Done(d) => AttachAll(site.checks, d, IdsOf(d.templates), site.devices)
  }

  function Script(db: Db, site: Site): Outcome
  {
    match BeforeKeys(db, site)
    case Aborted(d) => Aborted(d)
    case Done(d) => Finish(d, site)
  }

  /** What a finished script leaves. */
  ghost predicate Settled(db: Db, site: Site)
  {
    && AllHold(site.checks, db.templates, site.Specs())
    && |Found(db.templates, SshKeys)| == 1
    && TemplateHasKeys(db.templates[First(db.templates, SshKeys)], site.adminKeys)
    && OnNoDevice(db, Row(db.templates, MESH))
    && forall k :: 0 <= k < |site.devices| ==> Attached(site.checks, db, IdsOf(db.templates), site.devices[k])
  }

  lemma SpecNames(site: Site)
    ensures DistinctNames(site.Specs()) && |site.Specs()| == 5
    ensures site.Specs()[0].name == BASE && site.Specs()[1].name == PUCK && site.Specs()[2].name == TENWRT
    ensures site.Specs()[3].name == MESH && site.Specs()[4].name == PRESENCE
  {
    NamesDiffer();
  }

  lemma {:induction false} RenameAllKeeps(v: Checks, db: Db, n: nat)
    requires n <= |RENAMES|
    ensures RenameAll(v, db, n).db.devices == db.devices && RenameAll(v, db, n).db.configs == db.configs
  {
    if n > 0 {
      RenameAllKeeps(v, db, n - 1);
    }
  }

  lemma {:induction false} RenameAllIdle(v: Checks, db: Db, n: nat)
    requires n <= |RENAMES|
    requires forall k :: 0 <= k < |RENAMES| ==> Found(db.templates, ByName(RENAMES[k].1)) != {}
    ensures RenameAll(v, db, n) == Done(db)
  {
    if n > 0 {
      RenameAllIdle(v, db, n - 1);
    }
  }

  lemma RowsDiffer(v: Checks, ts: seq<Template>, s: Spec, s': Spec)
    requires SpecHolds(v, ts, s) && SpecHolds(v, ts, s') && s.name != s'.name
    ensures Row(ts, s.name) != Row(ts, s'.name)
  {
  }

  lemma OwnRowNotSsh(v: Checks, ts: seq<Template>, s: Spec)
    requires SpecHolds(v, ts, s) && Found(ts, SshKeys) != {}
    ensures Row(ts, s.name) != First(ts, SshKeys) && Row(ts, s.name) !in Defaults(ts)
  {
  }

  /** The rows of the specs and of the SSH keys are all different. */
  lemma IdsDistinct(ts: seq<Template>, site: Site)
    requires AllHold(site.checks, ts, site.Specs()) && Found(ts, SshKeys) != {}
    ensures DistinctIds(IdsOf(ts)) && Row(ts, MESH) !in Defaults(ts)
  {
    SpecNames(site);
    var v, specs := site.checks, site.Specs();
    var base, puck, tenwrt, mesh, presence := specs[0], specs[1], specs[2], specs[3], specs[4];
    NamesDiffer();
    RowsDiffer(v, ts, base, puck);
    RowsDiffer(v, ts, base, tenwrt);
    RowsDiffer(v, ts, base, mesh);
    RowsDiffer(v, ts, base, presence);
    RowsDiffer(v, ts, puck, tenwrt);
    RowsDiffer(v, ts, puck, mesh);
    RowsDiffer(v, ts, puck, presence);
    RowsDiffer(v, ts, tenwrt, mesh);
    RowsDiffer(v, ts, tenwrt, presence);
    RowsDiffer(v, ts, mesh, presence);
    forall k | 0 <= k < 5
      ensures Row(ts, specs[k].name) != First(ts, SshKeys) && Row(ts, specs[k].name) !in Defaults(ts)
    {
      OwnRowNotSsh(v, ts, specs[k]);
    }
  }

  /** A further upsert keeps the specs of other names, in their rows. */
  lemma SpecsStay(v: Checks, db: Db, specs: seq<Spec>, s: Spec)
    requires AllHold(v, db.templates, specs) && Upsert(v, db, s).Done?
    requires forall k :: 0 <= k < |specs| ==> specs[k].name != s.name
    ensures AllHold(v, Upsert(v, db, s).db.templates, specs)
    ensures forall k :: 0 <= k < |specs| ==>
      Row(Upsert(v, db, s).db.templates, specs[k].name) == Row(db.templates, specs[k].name)
  {
    forall k | 0 <= k < |specs|
      ensures SpecHolds(v, Upsert(v, db, s).db.templates, specs[k])
      ensures Row(Upsert(v, db, s).db.templates, specs[k].name) == Row(db.templates, specs[k].name)
    {
      SpecStays(v, db, s, specs[k]);
    }
  }

  lemma AllHoldAppend(v: Checks, ts: seq<Template>, specs: seq<Spec>)
    requires specs != [] && AllHold(v, ts, specs[..|specs| - 1]) && SpecHolds(v, ts, specs[|specs| - 1])
    ensures AllHold(v, ts, specs)
  {
    forall k | 0 <= k < |specs|
      ensures SpecHolds(v, ts, specs[k])
    {
      if k < |specs| - 1 { assert specs[..|specs| - 1][k] == specs[k]; }
    }
  }

  /** Once the first four specs hold: the mesh template off every device, and the last upsert. */
  lemma MeshComesOff(d2: Db, site: Site)
    requires AllHold(site.checks, d2.templates, site.Specs()[..4])
    requires Upsert(site.checks, Detach(d2, Row(d2.templates, MESH)), site.Specs()[4]).Done?
    ensures var d := Upsert(site.checks, Detach(d2, Row(d2.templates, MESH)), site.Specs()[4]).db;
      && AllHold(site.checks, d.templates, site.Specs()) && Row(d.templates, MESH) == Row(d2.templates, MESH)
      && d.devices == d2.devices && d.configs == Detach(d2, Row(d2.templates, MESH)).configs
  {
    var v, specs := site.checks, site.Specs();
    var d3 := Detach(d2, Row(d2.templates, MESH));
    SpecNames(site);
    UpsertMakes(v, d3, specs[4]);
    UpsertKeeps(v, d3, specs[4]);
    SpecsStay(v, d3, specs[..4], specs[4]);
    AllHoldAppend(v, Upsert(v, d3, specs[4]).db.templates, specs);
    assert specs[..4][3].name == MESH;
  }

  lemma DetachOnly(db: Db, id: nat)
    ensures var d := Detach(db, id);
      && OnNoDevice(d, id) && d.configs.Keys == db.configs.Keys
      && (forall c, other :: c in db.configs && other in db.configs[c] && other != id ==> other in d.configs[c])
      && forall c :: c in db.configs ==> d.configs[c] <= db.configs[c]
  {
  }

  /** After the first part every spec holds, mesh is on no device, and nothing else
      has come off any device. */
  lemma BeforeKeysMakes(db: Db, site: Site)
    requires BeforeKeys(db, site).Done?
    ensures var d := BeforeKeys(db, site).db;
      && AllHold(site.checks, d.templates, site.Specs()) && OnNoDevice(d, Row(d.templates, MESH)) && d.devices == db.devices
      && d.configs.Keys == db.configs.Keys
      && (forall c, id :: c in db.configs && id in db.configs[c] && id != Row(d.templates, MESH) ==> id in d.configs[c])
      && forall c :: c in db.configs ==> d.configs[c] <= db.configs[c]
  {
    SpecNames(site);
    var d1 := RenameAll(site.checks, db, |RENAMES|).db;
    RenameAllKeeps(site.checks, db, |RENAMES|);
    UpsertAllMakes(site.checks, d1, site.Specs()[..4]);
    var d2 := UpsertAll(site.checks, d1, site.Specs()[..4]).db;
    MeshComesOff(d2, site);
    DetachOnly(d2, Row(d2.templates, MESH));
  }

  /** A finished script has settled the database. */
  lemma ScriptSettles(db: Db, site: Site)
    requires DistinctDevices(db) && GoodKeys(site.adminKeys) && Script(db, site).Done?
    ensures Settled(Script(db, site).db, site) && Script(db, site).db.devices == db.devices
  {
    BeforeKeysMakes(db, site);
    FinishSettles(BeforeKeys(db, site).db, site);
  }

  lemma FinishSettles(d4: Db, site: Site)
    requires DistinctDevices(d4) && GoodKeys(site.adminKeys) && AllHold(site.checks, d4.templates, site.Specs())
    requires OnNoDevice(d4, Row(d4.templates, MESH)) && Finish(d4, site).Done?
    ensures Settled(Finish(d4, site).db, site) && Finish(d4, site).db.devices == d4.devices
  {
    SpecNames(site);
    SshMakes(site.checks, d4, site.adminKeys);
    var d5 := Ssh(site.checks, d4, site.adminKeys).db;
    forall k | 0 <= k < 5
      ensures SpecHolds(site.checks, d5.templates, site.Specs()[k])
      ensures Row(d5.templates, site.Specs()[k].name) == Row(d4.templates, site.Specs()[k].name)
    {
      SshKeepsSpec(site.checks, d4, site.adminKeys, site.Specs()[k]);
    }
    OneIfSingle(d5.templates, SshKeys, First(d4.templates, SshKeys));
    assert site.Specs()[3].name == MESH;
    IdsDistinct(d5.templates, site);
    AttachAllMakes(site.checks, d5, IdsOf(d5.templates), site.devices);
  }

  // ------------------------------------------------------- the result, by names

  ghost predicate IsNamed(ts: seq<Template>, i: nat, name: string)
  {
    i < |ts| && ts[i].org == ORG && ts[i].name == name
  }

  /** The default template that holds the authorized keys. */
  ghost predicate IsKeys(ts: seq<Template>, i: nat)
  {
    && i < |ts| && ts[i].isDefault
    && (ts[i].config.mentions
        || (ts[i].config.files.Some?
            && exists f :: f in ts[i].config.files.value && f.path == "/etc/dropbear/authorized_keys"))
  }

  /** One row has the name, with this configuration and, if given, these default values. */
  ghost predicate IsTemplate(ts: seq<Template>, name: string, config: Config, values: Option<nat>)
  {
    exists i: nat :: IsNamed(ts, i, name) && (forall j: nat :: IsNamed(ts, j, name) ==> j == i)
      && ts[i].kind == "generic netjsonconfig.OpenWrt" && ts[i].config == config && !ts[i].isDefault
      && (values.Some? ==> ts[i].values == values.value)
  }

  /** The five templates: what each name stands for. */
  ghost predicate TemplatesAre(ts: seq<Template>, site: Site)
  {
    && IsTemplate(ts, "ansells-aps-base", site.base, None)
    && IsTemplate(ts, "ansells-aps-puck", site.active, Some(site.defaults))
    && IsTemplate(ts, "ansells-aps-tenwrt", site.tenwrt, Some(site.defaults))
    && IsTemplate(ts, "ansells-aps-mesh", site.preserved, Some(site.defaults))
    && IsTemplate(ts, "ansells-presence", site.presence, None)
  }

  /** A template of that name is attached. */
  ghost predicate Rides(ts: seq<Template>, attached: set<nat>, name: string)
  {
    exists i :: i in attached && IsNamed(ts, i, name)
  }

  /** A registered device's templates: base and SSH keys; the puck's and presence on the
      pucks, and on tenwrt its own and neither of those. */
  ghost predicate Equipped(ts: seq<Template>, attached: set<nat>, device: string)
  {
    && Rides(ts, attached, "ansells-aps-base") && (exists i :: i in attached && IsKeys(ts, i))
    && if device == "tenwrt"
       then Rides(ts, attached, "ansells-aps-tenwrt")
            && !Rides(ts, attached, "ansells-aps-puck") && !Rides(ts, attached, "ansells-presence")
       else Rides(ts, attached, "ansells-aps-puck") && Rides(ts, attached, "ansells-presence")
  }

  /** What the script is for. */
  ghost predicate Intended(db: Db, site: Site)
  {
    && TemplatesAre(db.templates, site)
    && (forall device :: device in site.devices && device in db.devices ==>
          db.devices[device] in db.configs && Equipped(db.templates, db.configs[db.devices[device]], device))
    && forall c :: c in db.configs ==> !Rides(db.templates, db.configs[c], "ansells-aps-mesh")
  }

  lemma SpecIsTemplate(v: Checks, ts: seq<Template>, s: Spec)
    requires SpecHolds(v, ts, s)
    ensures IsTemplate(ts, s.name, s.config, s.values)
    ensures forall i: nat :: IsNamed(ts, i, s.name) <==> i == Row(ts, s.name)
  {
    RowUnique(v, ts, s);
    forall i: nat
      ensures IsNamed(ts, i, s.name) <==> i == Row(ts, s.name)
    {
      assert IsNamed(ts, i, s.name) <==> i in Found(ts, ByName(s.name));
    }
  }

  /** The rows that the names stand for. */
  lemma IdsAreNamed(db: Db, site: Site)
    requires AllHold(site.checks, db.templates, site.Specs()) && |Found(db.templates, SshKeys)| == 1
    ensures TemplatesAre(db.templates, site)
    ensures var ids := IdsOf(db.templates);
      forall i: nat :: (IsNamed(db.templates, i, "ansells-aps-base") <==> i == ids.base)
                    && (IsNamed(db.templates, i, "ansells-aps-puck") <==> i == ids.puck)
                    && (IsNamed(db.templates, i, "ansells-aps-tenwrt") <==> i == ids.tenwrt)
                    && (IsNamed(db.templates, i, "ansells-aps-mesh") <==> i == ids.mesh)
                    && (IsNamed(db.templates, i, "ansells-presence") <==> i == ids.presence)
    ensures IsKeys(db.templates, IdsOf(db.templates).ssh)
  {
    SpecNames(site);
    forall k | 0 <= k < 5
      ensures var s := site.Specs()[k];
        IsTemplate(db.templates, s.name, s.config, s.values)
        && forall i: nat :: IsNamed(db.templates, i, s.name) <==> i == Row(db.templates, s.name)
    {
      SpecIsTemplate(site.checks, db.templates, site.Specs()[k]);
    }
    var base, puck, tenwrt := site.Specs()[0], site.Specs()[1], site.Specs()[2];
    var mesh, presence := site.Specs()[3], site.Specs()[4];
  }

  lemma AttachedEquips(db: Db, site: Site, device: string)
    requires AllHold(site.checks, db.templates, site.Specs()) && |Found(db.templates, SshKeys)| == 1
    requires Attached(site.checks, db, IdsOf(db.templates), device) && device in db.devices
    ensures db.devices[device] in db.configs && Equipped(db.templates, db.configs[db.devices[device]], device)
  {
    IdsAreNamed(db, site);
    var ids, attached := IdsOf(db.templates), db.configs[db.devices[device]];
    assert ids.base in attached && ids.ssh in attached;
    if device == "tenwrt" {
      assert ids.tenwrt in attached && ids.puck !in attached && ids.presence !in attached;
    } else {
      assert ids.puck in attached && ids.presence in attached;
    }
  }

  /** A settled database is as intended. */
  lemma SettledIntends(db: Db, site: Site)
    requires Settled(db, site)
    ensures Intended(db, site)
  {
    IdsAreNamed(db, site);
    forall device | device in site.devices && device in db.devices
      ensures db.devices[device] in db.configs && Equipped(db.templates, db.configs[db.devices[device]], device)
    {
      var k :| 0 <= k < |site.devices| && site.devices[k] == device;
      AttachedEquips(db, site, device);
    }
  }

  lemma BeforeKeysIdle(db: Db, site: Site)
    requires AllHold(site.checks, db.templates, site.Specs()) && OnNoDevice(db, Row(db.templates, MESH))
    ensures BeforeKeys(db, site) == Done(db)
  {
    var v, specs := site.checks, site.Specs();
    SpecNames(site);
    forall k | 0 <= k < |RENAMES|
      ensures Found(db.templates, ByName(RENAMES[k].1)) != {}
    {
      assert SpecHolds(v, db.templates, specs[if k == 2 then 3 else k]);
    }
    RenameAllIdle(v, db, |RENAMES|);
    assert AllHold(v, db.templates, specs[..4]) by {
      assert forall k :: 0 <= k < 4 ==> specs[..4][k] == specs[k];
    }
    UpsertAllIdle(v, db, specs[..4]);
    DetachIdle(db, Row(db.templates, MESH));
    assert SpecHolds(v, db.templates, specs[4]);
    UpsertIdle(v, db, specs[4]);
  }

  /** A settled database is not changed by another run. */
  lemma SettledIsFixed(db: Db, site: Site)
    requires Settled(db, site)
    ensures Script(db, site) == Done(db)
  {
    BeforeKeysIdle(db, site);
    AttachAllIdle(site.checks, db, IdsOf(db.templates), site.devices);
  }

  lemma DetachIdle(db: Db, id: nat)
    requires OnNoDevice(db, id)
    ensures Detach(db, id) == db
  {
    forall c | c in db.configs
      ensures db.configs[c] - {id} == db.configs[c]
    {
    }
  }

  /** The script is idempotent: run again, it changes nothing. */
  lemma Idempotent(db: Db, site: Site)
    requires DistinctDevices(db) && GoodKeys(site.adminKeys) && Script(db, site).Done?
    ensures Script(Script(db, site).db, site) == Script(db, site)
  {
    ScriptSettles(db, site);
    SettledIsFixed(Script(db, site).db, site);
  }

  // ------------------------------------------- what a run keeps of what was there

  const NAMES: set<string> := {BASE, PUCK, TENWRT, MESH, PRESENCE}

  /** Every row is as it was, or is now one of the script's own templates. */
  ghost predicate Traced(ts: seq<Template>, ts': seq<Template>)
  {
    && |ts| <= |ts'|
    && forall i {:trigger ts'[i]} :: 0 <= i < |ts'| ==>
         (i < |ts| && ts'[i] == ts[i]) || (ts'[i].org == ORG && ts'[i].name in NAMES)
  }

  lemma {:induction false} RenameAllTraced(v: Checks, db: Db, n: nat)
    requires n <= |RENAMES|
    ensures Traced(db.templates, RenameAll(v, db, n).db.templates)
  {
    if n > 0 {
      RenameAllTraced(v, db, n - 1);
      var d := RenameAll(v, db, n - 1).db;
      var q := ByName(RENAMES[n - 1].0);
      assert Found(d.templates, q) != {} ==> Hits(q, d.templates[First(d.templates, q)]);
      assert RENAMES[n - 1].1 in NAMES;
    }
  }

  lemma UpsertTraced(v: Checks, ts: seq<Template>, db: Db, s: Spec)
    requires Traced(ts, db.templates) && s.name in NAMES
    ensures Traced(ts, Upsert(v, db, s).db.templates)
  {
    var q := ByName(s.name);
    assert Found(db.templates, q) != {} ==> Hits(q, db.templates[First(db.templates, q)]);
  }

  lemma {:induction false} UpsertAllTraced(v: Checks, ts: seq<Template>, db: Db, specs: seq<Spec>)
    requires Traced(ts, db.templates) && forall k :: 0 <= k < |specs| ==> specs[k].name in NAMES
    ensures Traced(ts, UpsertAll(v, db, specs).db.templates)
  {
    if specs != [] {
      var n := |specs| - 1;
      assert forall k :: 0 <= k < n ==> specs[..n][k] == specs[k];
      UpsertAllTraced(v, ts, db, specs[..n]);
      UpsertTraced(v, ts, UpsertAll(v, db, specs[..n]).db, specs[n]);
    }
  }

  lemma BeforeKeysTraced(db: Db, site: Site)
    requires BeforeKeys(db, site).Done?
    ensures Traced(db.templates, BeforeKeys(db, site).db.templates)
  {
    SpecNames(site);
    var d1 := RenameAll(site.checks, db, |RENAMES|).db;
    RenameAllTraced(site.checks, db, |RENAMES|);
    UpsertAllTraced(site.checks, db.templates, d1, site.Specs()[..4]);
    var d2 := UpsertAll(site.checks, d1, site.Specs()[..4]).db;
    UpsertTraced(site.checks, db.templates, Detach(d2, Row(d2.templates, MESH)), site.Specs()[4]);
  }

  /** The script never touches the SSH Keys row but to add keys: it was there before
      the run, and no nonblank line of its files is lost. */
  lemma KeyLinesKept(db: Db, site: Site)
    requires GoodKeys(site.adminKeys) && Script(db, site).Done?
    ensures var d := Script(db, site).db;
      var j := First(d.templates, SshKeys);
      && j < |db.templates| && j < |d.templates|
      && FilesKept(db.templates[j].config, d.templates[j].config, site.adminKeys)
  {
    var d4 := BeforeKeys(db, site).db;
    BeforeKeysTraced(db, site);
    BeforeKeysMakes(db, site);
    SshMakes(site.checks, d4, site.adminKeys);
    var j := First(d4.templates, SshKeys);
    var d5 := Ssh(site.checks, d4, site.adminKeys).db;
    OneIfSingle(d5.templates, SshKeys, j);
    AttachAllTemplates(site.checks, d5, IdsOf(d5.templates), site.devices);
    DefaultRowUntouched(db.templates, d4.templates, site, j);
  }

  lemma {:induction false} AttachAllTemplates(v: Checks, db: Db, ids: Ids, devices: seq<string>)
    ensures AttachAll(v, db, ids, devices).db.templates == db.templates
  {
    if devices != [] {
      AttachAllTemplates(v, db, ids, devices[..|devices| - 1]);
    }
  }

  lemma OwnRowNotDefault(v: Checks, ts: seq<Template>, s: Spec, j: nat)
    requires SpecHolds(v, ts, s) && j < |ts| && Hits(ByName(s.name), ts[j])
    ensures !ts[j].isDefault
  {
    RowUnique(v, ts, s);
    assert j in Found(ts, ByName(s.name));
  }

  lemma DefaultRowUntouched(ts: seq<Template>, ts': seq<Template>, site: Site, j: nat)
    requires Traced(ts, ts') && AllHold(site.checks, ts', site.Specs()) && j < |ts'| && ts'[j].isDefault
    ensures j < |ts| && ts'[j] == ts[j]
  {
    SpecNames(site);
    forall k | 0 <= k < 5
      ensures !Hits(ByName(site.Specs()[k].name), ts'[j])
    {
      if Hits(ByName(site.Specs()[k].name), ts'[j]) {
        OwnRowNotDefault(site.checks, ts', site.Specs()[k], j);
      }
    }
  }

  ghost predicate OnlyRow(ts: seq<Template>, name: string, i: nat)
  {
    Found(ts, ByName(name)) == {i}
  }

  lemma UpsertKeepsRow(v: Checks, db: Db, s: Spec, name: string, i: nat)
    requires OnlyRow(db.templates, name, i) && Upsert(v, db, s).Done?
    ensures OnlyRow(Upsert(v, db, s).db.templates, name, i)
  {
    var q, r := ByName(name), ByName(s.name);
    if Found(db.templates, r) == {} {
      FoundAppended(db.templates, Created(s), q);
    } else {
      var k := First(db.templates, r);
      FoundReplaced(db.templates, k, Updated(db.templates[k], s), q);
    }
  }

  lemma {:induction false} UpsertAllKeepsRow(v: Checks, db: Db, specs: seq<Spec>, name: string, i: nat)
    requires OnlyRow(db.templates, name, i) && UpsertAll(v, db, specs).Done?
    ensures OnlyRow(UpsertAll(v, db, specs).db.templates, name, i)
  {
    if specs != [] {
      var n := |specs| - 1;
      UpsertAllKeepsRow(v, db, specs[..n], name, i);
      UpsertKeepsRow(v, UpsertAll(v, db, specs[..n]).db, specs[n], name, i);
    }
  }

  lemma RenameNamesDiffer(j: nat, k: nat)
    requires j < |RENAMES| && k < |RENAMES|
    ensures RENAMES[j].0 != RENAMES[k].1
    ensures j != k ==> RENAMES[j].0 != RENAMES[k].0 && RENAMES[j].1 != RENAMES[k].1
  {
    NamesDiffer();
    assert RENAMES[0].0[6] == 'b' && RENAMES[1].0[6] == 'a' && RENAMES[2].0[6] == 'm';
    assert RENAMES[j].0[0] == 'g' && RENAMES[k].1[0] == 'a';
  }

  /** While other pairs are renamed, a pair waits as it is or stays done. */
  lemma RenameOther(v: Checks, db: Db, j: nat, k: nat)
    requires j < |RENAMES| && k < |RENAMES| && j != k && Rename(v, db, RENAMES[j].0, RENAMES[j].1).Done?
    ensures var d := Rename(v, db, RENAMES[j].0, RENAMES[j].1).db;
      Found(d.templates, ByName(RENAMES[k].0)) == Found(db.templates, ByName(RENAMES[k].0))
      && Found(d.templates, ByName(RENAMES[k].1)) == Found(db.templates, ByName(RENAMES[k].1))
  {
    RenameNamesDiffer(j, k);
    RenameNamesDiffer(k, j);
    var q := ByName(RENAMES[j].0);
    if Found(db.templates, q) != {} {
      var r := First(db.templates, q);
      var t := db.templates[r].(name := RENAMES[j].1);
      FoundReplaced(db.templates, r, t, ByName(RENAMES[k].0));
      FoundReplaced(db.templates, r, t, ByName(RENAMES[k].1));
    }
  }

  lemma RenameThis(v: Checks, db: Db, k: nat, i: nat)
    requires k < |RENAMES| && Rename(v, db, RENAMES[k].0, RENAMES[k].1).Done?
    requires OnlyRow(db.templates, RENAMES[k].0, i) && Found(db.templates, ByName(RENAMES[k].1)) == {}
    ensures OnlyRow(Rename(v, db, RENAMES[k].0, RENAMES[k].1).db.templates, RENAMES[k].1, i)
  {
    RenameNamesDiffer(k, k);
    OneIfSingle(db.templates, ByName(RENAMES[k].0), i);
    FoundReplaced(db.templates, i, db.templates[i].(name := RENAMES[k].1), ByName(RENAMES[k].1));
  }

  lemma {:induction false} RenameAllMoves(v: Checks, db: Db, n: nat, k: nat, i: nat)
    requires n <= |RENAMES| && k < |RENAMES| && RenameAll(v, db, n).Done?
    requires OnlyRow(db.templates, RENAMES[k].0, i) && Found(db.templates, ByName(RENAMES[k].1)) == {}
    ensures if n <= k then OnlyRow(RenameAll(v, db, n).db.templates, RENAMES[k].0, i)
                           && Found(RenameAll(v, db, n).db.templates, ByName(RENAMES[k].1)) == {}
            else OnlyRow(RenameAll(v, db, n).db.templates, RENAMES[k].1, i)
  {
    if n > 0 {
      RenameAllMoves(v, db, n - 1, k, i);
      var d := RenameAll(v, db, n - 1).db;
      if n - 1 == k { RenameThis(v, d, k, i); } else { RenameOther(v, d, n - 1, k); }
    }
  }

  lemma BeforeKeysMoves(db: Db, site: Site, k: nat, i: nat)
    requires k < |RENAMES| && BeforeKeys(db, site).Done?
    requires OnlyRow(db.templates, RENAMES[k].0, i) && Found(db.templates, ByName(RENAMES[k].1)) == {}
    ensures OnlyRow(BeforeKeys(db, site).db.templates, RENAMES[k].1, i)
  {
    var name := RENAMES[k].1;
    RenameAllMoves(site.checks, db, |RENAMES|, k, i);
    var d1 := RenameAll(site.checks, db, |RENAMES|).db;
    UpsertAllKeepsRow(site.checks, d1, site.Specs()[..4], name, i);
    var d2 := UpsertAll(site.checks, d1, site.Specs()[..4]).db;
    UpsertKeepsRow(site.checks, Detach(d2, Row(d2.templates, MESH)), site.Specs()[4], name, i);
  }

  lemma FinishKeepsNames(db: Db, site: Site, name: string)
    requires GoodKeys(site.adminKeys) && Finish(db, site).Done?
    ensures Found(Finish(db, site).db.templates, ByName(name)) == Found(db.templates, ByName(name))
  {
    SshMakes(site.checks, db, site.adminKeys);
    var d := Ssh(site.checks, db, site.adminKeys).db;
    AttachAllTemplates(site.checks, d, IdsOf(d.templates), site.devices);
    SameNames(db.templates, d.templates, name);
  }

  lemma SameNames(ts: seq<Template>, ts': seq<Template>, name: string)
    requires |ts| == |ts'|
    requires forall i {:trigger ts'[i]} :: 0 <= i < |ts| ==> ts'[i].org == ts[i].org && ts'[i].name == ts[i].name
    ensures Found(ts', ByName(name)) == Found(ts, ByName(name))
  {
  }

  /** The renames. */
  predicate Renamed(old': string, new': string)
  {
    || (old' == "gwifi-base" && new' == "ansells-aps-base")
    || (old' == "gwifi-aps" && new' == "ansells-aps-puck")
    || (old' == "gwifi-mesh-aps" && new' == "ansells-aps-mesh")
  }

  lemma RenamedAt(old': string, new': string) returns (k: nat)
    requires Renamed(old', new')
    ensures k < |RENAMES| && RENAMES[k] == (old', new')
  {
    k := if old' == "gwifi-base" then 0 else if old' == "gwifi-aps" then 1 else 2;
  }

  /** A template with an old name, when nothing has the new one, is afterwards the
      template with the new name: the same row. */
  lemma RenameKeepsRow(db: Db, site: Site, old': string, new': string, i: nat)
    requires Renamed(old', new') && GoodKeys(site.adminKeys) && Script(db, site).Done?
    requires OnlyRow(db.templates, old', i) && Found(db.templates, ByName(new')) == {}
    ensures OnlyRow(Script(db, site).db.templates, new', i)
  {
    var k := RenamedAt(old', new');
    BeforeKeysMoves(db, site, k, i);
    FinishKeepsNames(BeforeKeys(db, site).db, site, new');
  }

  lemma {:induction false} RenameAllBlocked(v: Checks, db: Db, n: nat, k: nat)
    requires n <= |RENAMES| && k < |RENAMES| && RenameAll(v, db, n).Done?
    requires Found(db.templates, ByName(RENAMES[k].1)) != {}
    ensures var ts := RenameAll(v, db, n).db.templates;
      Found(ts, ByName(RENAMES[k].0)) == Found(db.templates, ByName(RENAMES[k].0))
      && Found(ts, ByName(RENAMES[k].1)) == Found(db.templates, ByName(RENAMES[k].1))
  {
    if n > 0 {
      RenameAllBlocked(v, db, n - 1, k);
      if n - 1 != k { RenameOther(v, RenameAll(v, db, n - 1).db, n - 1, k); }
    }
  }

  lemma {:induction false} UpsertAllOthers(v: Checks, db: Db, specs: seq<Spec>, name: string)
    requires UpsertAll(v, db, specs).Done? && forall k :: 0 <= k < |specs| ==> specs[k].name != name
    ensures Found(UpsertAll(v, db, specs).db.templates, ByName(name)) == Found(db.templates, ByName(name))
  {
    if specs != [] {
      var n := |specs| - 1;
      var d := UpsertAll(v, db, specs[..n]).db;
      UpsertAllOthers(v, db, specs[..n], name);
      UpsertKeeps(v, d, specs[n]);
      OthersFound(d.templates, Upsert(v, d, specs[n]).db.templates, specs[n].name, name);
    }
  }

  lemma BeforeKeysOthers(db: Db, site: Site, name: string)
    requires BeforeKeys(db, site).Done? && forall k :: 0 <= k < 5 ==> site.Specs()[k].name != name
    ensures Found(BeforeKeys(db, site).db.templates, ByName(name))
            == Found(RenameAll(site.checks, db, |RENAMES|).db.templates, ByName(name))
  {
    var v, specs := site.checks, site.Specs();
    var d1 := RenameAll(v, db, |RENAMES|).db;
    UpsertAllOthers(v, d1, specs[..4], name);
    var d2 := UpsertAll(v, d1, specs[..4]).db;
    var d3 := Detach(d2, Row(d2.templates, MESH));
    UpsertKeeps(v, d3, specs[4]);
    OthersFound(d3.templates, Upsert(v, d3, specs[4]).db.templates, specs[4].name, name);
  }

  lemma OldIsNoSpec(site: Site, old': string, new': string)
    requires Renamed(old', new')
    ensures forall k :: 0 <= k < 5 ==> site.Specs()[k].name != old'
  {
    SpecNames(site);
    forall k | 0 <= k < 5
      ensures site.Specs()[k].name != old'
    {
      assert site.Specs()[k].name[0] == 'a' && old'[0] == 'g';
    }
  }

  /** When both names exist, the rows with the old one are left alone. */
  lemma RenameBlocked(db: Db, site: Site, old': string, new': string)
    requires Renamed(old', new') && GoodKeys(site.adminKeys) && Script(db, site).Done?
    requires Found(db.templates, ByName(new')) != {}
    ensures Found(Script(db, site).db.templates, ByName(old')) == Found(db.templates, ByName(old'))
  {
    var k := RenamedAt(old', new');
    RenameAllBlocked(site.checks, db, |RENAMES|, k);
    OldIsNoSpec(site, old', new');
    BeforeKeysOthers(db, site, old');
    FinishKeepsNames(BeforeKeys(db, site).db, site, old');
  }

  /** The only attachments a run ends are the mesh template's, and the puck and
      presence templates' on tenwrt. */
  lemma AttachmentsKept(db: Db, site: Site, c: nat, id: nat)
    requires GoodKeys(site.adminKeys) && DistinctDevices(db) && Script(db, site).Done?
    requires c in db.configs && id in db.configs[c]
    requires var ids := IdsOf(Script(db, site).db.templates);
      id != ids.mesh && !(TENWRT_DEVICE in db.devices && db.devices[TENWRT_DEVICE] == c && id in {ids.puck, ids.presence})
    ensures c in Script(db, site).db.configs && id in Script(db, site).db.configs[c]
  {
    BeforeKeysMakes(db, site);
    var d := BeforeKeys(db, site).db;
    SpecNames(site);
    assert site.Specs()[3].name == MESH && SpecHolds(site.checks, d.templates, site.Specs()[3]);
    FinishKeepsAttachments(d, site, c, id);
  }

  lemma FinishKeepsAttachments(d4: Db, site: Site, c: nat, id: nat)
    requires GoodKeys(site.adminKeys) && DistinctDevices(d4) && Finish(d4, site).Done?
    requires SpecHolds(site.checks, d4.templates, site.Specs()[3]) && site.Specs()[3].name == MESH
    ensures Row(Finish(d4, site).db.templates, MESH) == Row(d4.templates, MESH)
    ensures c in d4.configs && id in d4.configs[c] &&
      (var ids := IdsOf(Finish(d4, site).db.templates);
       !(TENWRT_DEVICE in d4.devices && d4.devices[TENWRT_DEVICE] == c && id in {ids.puck, ids.presence}))
      ==> c in Finish(d4, site).db.configs && id in Finish(d4, site).db.configs[c]
  {
    SshMakes(site.checks, d4, site.adminKeys);
    SshKeepsSpec(site.checks, d4, site.adminKeys, site.Specs()[3]);
    var d5 := Ssh(site.checks, d4, site.adminKeys).db;
    var ids := IdsOf(d5.templates);
    AttachAllTemplates(site.checks, d5, ids, site.devices);
    if c in d4.configs && id in d4.configs[c]
       && !(TENWRT_DEVICE in d4.devices && d4.devices[TENWRT_DEVICE] == c && id in {ids.puck, ids.presence}) {
      AttachAllKeeps(site.checks, d5, ids, site.devices, c, id);
    }
  }

  lemma {:induction false} AttachAllKeeps(v: Checks, db: Db, ids: Ids, devices: seq<string>, c: nat, id: nat)
    requires DistinctDevices(db) && c in db.configs && id in db.configs[c]
    requires !(TENWRT_DEVICE in db.devices && db.devices[TENWRT_DEVICE] == c && id in {ids.puck, ids.presence})
    ensures var d := AttachAll(v, db, ids, devices).db;
      d.devices == db.devices && c in d.configs && id in d.configs[c]
  {
    if devices != [] {
      AttachAllKeeps(v, db, ids, devices[..|devices| - 1], c, id);
    }
  }

  /** The step that attaches template id to config c: a device of that config wants it, or
      the config is new and the template is a default one. */
  ghost predicate AddedBy(db: Db, ids: Ids, devices: seq<string>, c: nat, id: nat)
  {
    exists k :: 0 <= k < |devices| && devices[k] in db.devices && db.devices[devices[k]] == c
      && (id in Want(ids, devices[k]) || (c !in db.configs && id in Defaults(db.templates)))
  }

  lemma {:induction false} AttachAllOnly(v: Checks, db: Db, ids: Ids, devices: seq<string>, c: nat, id: nat)
    ensures var d := AttachAll(v, db, ids, devices).db;
      && d.devices == db.devices && d.templates == db.templates
      && (c in db.configs ==> c in d.configs)
      && (c in d.configs && id in d.configs[c] ==>
            (c in db.configs && id in db.configs[c]) || AddedBy(db, ids, devices, c, id))
      && (c in d.configs && c !in db.configs && id in Defaults(db.templates) - {ids.puck, ids.presence} ==>
            id in d.configs[c])
  {
    if devices != [] {
      var n := |devices| - 1;
      AttachAllOnly(v, db, ids, devices[..n], c, id);
      if AddedBy(db, ids, devices[..n], c, id) {
        var k :| 0 <= k < n && devices[..n][k] in db.devices && db.devices[devices[..n][k]] == c
          && (id in Want(ids, devices[..n][k]) || (c !in db.configs && id in Defaults(db.templates)));
        assert devices[..n][k] == devices[k];
      }
    }
  }

  /** What the script attaches to a device. */
  ghost predicate Wanted(ts: seq<Template>, device: string, i: nat)
  {
    || IsKeys(ts, i) || IsNamed(ts, i, "ansells-aps-base")
    || if device == "tenwrt" then IsNamed(ts, i, "ansells-aps-tenwrt")
       else IsNamed(ts, i, "ansells-aps-puck") || IsNamed(ts, i, "ansells-presence")
  }

  /** A finished run up to the attach loop. */
  lemma ScriptParts(db: Db, site: Site) returns (d: Db)
    requires DistinctDevices(db) && GoodKeys(site.adminKeys) && Script(db, site).Done?
    ensures d.devices == db.devices && d.configs.Keys == db.configs.Keys
    ensures forall c :: c in db.configs ==> d.configs[c] <= db.configs[c]
    ensures var db' := Script(db, site).db;
      Settled(db', site) && db' == AttachAll(site.checks, d, IdsOf(db'.templates), site.devices).db
  {
    ScriptSettles(db, site);
    BeforeKeysMakes(db, site);
    var d4 := BeforeKeys(db, site).db;
    SshMakes(site.checks, d4, site.adminKeys);
    d := Ssh(site.checks, d4, site.adminKeys).db;
    AttachAllTemplates(site.checks, d, IdsOf(d.templates), site.devices);
  }

  lemma WantIsWanted(db: Db, site: Site, device: string, id: nat)
    requires AllHold(site.checks, db.templates, site.Specs()) && |Found(db.templates, SshKeys)| == 1
    requires id in Want(IdsOf(db.templates), device)
    ensures Wanted(db.templates, device, id)
  {
    IdsAreNamed(db, site);
  }

  lemma OwnNotDefault(db: Db, site: Site)
    requires AllHold(site.checks, db.templates, site.Specs()) && Found(db.templates, SshKeys) != {}
    ensures var ids := IdsOf(db.templates); ids.puck !in Defaults(db.templates) && ids.presence !in Defaults(db.templates)
  {
    SpecNames(site);
    OwnRowNotSsh(site.checks, db.templates, site.Specs()[1]);
    OwnRowNotSsh(site.checks, db.templates, site.Specs()[4]);
  }

  lemma OnlyWanted(d: Db, d': Db, site: Site, c: nat, id: nat)
    requires AllHold(site.checks, d'.templates, site.Specs()) && |Found(d'.templates, SshKeys)| == 1
    requires d' == AttachAll(site.checks, d, IdsOf(d'.templates), site.devices).db
    requires c in d'.configs && id in d'.configs[c]
    ensures (c in d.configs && id in d.configs[c])
      || exists device :: device in site.devices && device in d.devices && d.devices[device] == c
           && (Wanted(d'.templates, device, id) || (c !in d.configs && id < |d'.templates| && d'.templates[id].isDefault))
  {
    var ids := IdsOf(d'.templates);
    AttachAllOnly(site.checks, d, ids, site.devices, c, id);
    if AddedBy(d, ids, site.devices, c, id) {
      var k :| 0 <= k < |site.devices| && site.devices[k] in d.devices && d.devices[site.devices[k]] == c
        && (id in Want(ids, site.devices[k]) || (c !in d.configs && id in Defaults(d.templates)));
      var device := site.devices[k];
      assert device in site.devices;
      if id in Want(ids, device) {
        WantIsWanted(d', site, device, id);
      }
    }
  }

  lemma DefaultsOnNew(d: Db, d': Db, site: Site, c: nat, id: nat)
    requires AllHold(site.checks, d'.templates, site.Specs()) && |Found(d'.templates, SshKeys)| == 1
    requires d' == AttachAll(site.checks, d, IdsOf(d'.templates), site.devices).db
    requires c in d'.configs && c !in d.configs && id < |d'.templates| && d'.templates[id].isDefault
    ensures id in d'.configs[c]
  {
    OwnNotDefault(d', site);
    AttachAllOnly(site.checks, d, IdsOf(d'.templates), site.devices, c, id);
  }

  /** A run attaches nothing else: the wanted templates to the listed devices that are
      registered, and the default ones to a config that it creates. */
  lemma NothingElseAttached(db: Db, site: Site, c: nat, id: nat)
    requires DistinctDevices(db) && GoodKeys(site.adminKeys) && Script(db, site).Done?
    requires c in Script(db, site).db.configs && id in Script(db, site).db.configs[c]
    ensures var ts := Script(db, site).db.templates;
      || (c in db.configs && id in db.configs[c])
      || exists device :: device in site.devices && device in db.devices && db.devices[device] == c
           && (Wanted(ts, device, id) || (c !in db.configs && id < |ts| && ts[id].isDefault))
  {
    var d := ScriptParts(db, site);
    OnlyWanted(d, Script(db, site).db, site, c, id);
  }

  /** A device without a config gets one, with every default template on it. */
  lemma NewConfigHasDefaults(db: Db, site: Site, device: string, id: nat)
    requires DistinctDevices(db) && GoodKeys(site.adminKeys) && Script(db, site).Done?
    requires device in site.devices && device in db.devices && db.devices[device] !in db.configs
    requires id < |Script(db, site).db.templates| && Script(db, site).db.templates[id].isDefault
    ensures var configs := Script(db, site).db.configs;
      db.devices[device] in configs && id in configs[db.devices[device]]
  {
    var d := ScriptParts(db, site);
    ScriptSettles(db, site);
    SettledIntends(Script(db, site).db, site);
    DefaultsOnNew(d, Script(db, site).db, site, db.devices[device], id);
  }

  lemma UpsertValues(v: Checks, db: Db, s: Spec, name: string, i: nat)
    requires OnlyRow(db.templates, name, i) && Upsert(v, db, s).Done? && (s.name == name ==> s.values.None?)
    ensures var ts := Upsert(v, db, s).db.templates;
      OnlyRow(ts, name, i) && i < |db.templates| <= |ts| && ts[i].values == db.templates[i].values
  {
    assert i in Found(db.templates, ByName(name));
    UpsertKeepsRow(v, db, s, name, i);
    UpsertKeeps(v, db, s);
    if s.name == name {
      OneIfSingle(db.templates, ByName(name), i);
    }
  }

  lemma {:induction false} UpsertAllValues(v: Checks, db: Db, specs: seq<Spec>, name: string, i: nat)
    requires OnlyRow(db.templates, name, i) && UpsertAll(v, db, specs).Done?
    requires forall k :: 0 <= k < |specs| && specs[k].name == name ==> specs[k].values.None?
    ensures var ts := UpsertAll(v, db, specs).db.templates;
      OnlyRow(ts, name, i) && i < |db.templates| <= |ts| && ts[i].values == db.templates[i].values
  {
    assert i in Found(db.templates, ByName(name));
    if specs != [] {
      var n := |specs| - 1;
      assert forall k :: 0 <= k < n ==> specs[..n][k] == specs[k];
      UpsertAllValues(v, db, specs[..n], name, i);
      UpsertValues(v, UpsertAll(v, db, specs[..n]).db, specs[n], name, i);
    }
  }

  lemma {:induction false} RenameAllSpares(v: Checks, db: Db, n: nat, name: string, i: nat)
    requires n <= |RENAMES| && OnlyRow(db.templates, name, i) && RenameAll(v, db, n).Done?
    requires forall k :: 0 <= k < |RENAMES| ==> RENAMES[k].0 != name
    ensures var ts := RenameAll(v, db, n).db.templates;
      OnlyRow(ts, name, i) && i < |db.templates| <= |ts| && ts[i] == db.templates[i]
  {
    assert i in Found(db.templates, ByName(name));
    if n > 0 {
      RenameAllSpares(v, db, n - 1, name, i);
      var d, old', new' := RenameAll(v, db, n - 1).db, RENAMES[n - 1].0, RENAMES[n - 1].1;
      if Found(d.templates, ByName(old')) != {} && new' != name {
        var r := First(d.templates, ByName(old'));
        FoundReplaced(d.templates, r, d.templates[r].(name := new'), ByName(name));
      }
    }
  }

  lemma NoValuesAsked(site: Site, name: string)
    requires name == "ansells-aps-base" || name == "ansells-presence"
    ensures forall k :: 0 <= k < |RENAMES| ==> RENAMES[k].0 != name
    ensures forall k :: 0 <= k < 4 && site.Specs()[..4][k].name == name ==> site.Specs()[..4][k].values.None?
    ensures site.Specs()[4].name == name ==> site.Specs()[4].values.None?
  {
    SpecNames(site);
    NamesDiffer();
    assert forall k :: 0 <= k < |RENAMES| ==> RENAMES[k].0[0] == 'g';
    assert name[0] == 'a';
  }

  lemma BeforeKeysValues(db: Db, site: Site, name: string, i: nat)
    requires name == "ansells-aps-base" || name == "ansells-presence"
    requires OnlyRow(db.templates, name, i) && BeforeKeys(db, site).Done?
    ensures var ts := BeforeKeys(db, site).db.templates;
      OnlyRow(ts, name, i) && i < |db.templates| <= |ts| && ts[i].values == db.templates[i].values
  {
    var v, specs := site.checks, site.Specs();
    NoValuesAsked(site, name);
    RenameAllSpares(v, db, |RENAMES|, name, i);
    var d1 := RenameAll(v, db, |RENAMES|).db;
    UpsertAllValues(v, d1, specs[..4], name, i);
    var d2 := UpsertAll(v, d1, specs[..4]).db;
    UpsertValues(v, Detach(d2, Row(d2.templates, MESH)), specs[4], name, i);
  }

  lemma FinishValues(d: Db, site: Site, name: string, i: nat)
    requires OnlyRow(d.templates, name, i) && GoodKeys(site.adminKeys) && Finish(d, site).Done?
    ensures var ts := Finish(d, site).db.templates;
      OnlyRow(ts, name, i) && i < |d.templates| <= |ts| && ts[i].values == d.templates[i].values
  {
    assert i in Found(d.templates, ByName(name));
    SshMakes(site.checks, d, site.adminKeys);
    FinishKeepsNames(d, site, name);
    var d' := Ssh(site.checks, d, site.adminKeys).db;
    AttachAllTemplates(site.checks, d', IdsOf(d'.templates), site.devices);
  }

  /** Default values that were set on the base or the presence template survive the run:
      the script asks for none. */
  lemma ValuesKept(db: Db, site: Site, name: string, i: nat)
    requires name == "ansells-aps-base" || name == "ansells-presence"
    requires OnlyRow(db.templates, name, i) && GoodKeys(site.adminKeys) && Script(db, site).Done?
    ensures var ts := Script(db, site).db.templates;
      OnlyRow(ts, name, i) && i < |db.templates| <= |ts| && ts[i].values == db.templates[i].values
  {
    BeforeKeysValues(db, site, name, i);
    FinishValues(BeforeKeys(db, site).db, site, name, i);
  }

  // ------------------------------------------------------- when a run finishes

  ghost predicate Accepting(v: Checks)
  {
    (forall t :: v.template(t)) && forall d, ts, c :: v.config(d, ts, c)
  }

  /** A row that the script renames or overwrites. */
  ghost predicate Own(t: Template)
  {
    t.org == ORG && (t.name in NAMES || t.name in {"gwifi-base", "gwifi-aps", "gwifi-mesh-aps"})
  }

  /** The SSH Keys row is t, in place j, and no name of the script's is there twice. */
  ghost predicate Clear(ts: seq<Template>, j: nat, t: Template)
  {
    && Found(ts, SshKeys) == {j} && j < |ts| && ts[j] == t && t.config.files.Some? && !Own(t)
    && forall name :: name in NAMES ==> |Found(ts, ByName(name))| <= 1
  }

  ghost predicate Unambiguous(ts: seq<Template>, old': string, new': string)
  {
    Found(ts, ByName(new')) != {} || |Found(ts, ByName(old'))| <= 1
  }

  lemma RenameClear(v: Checks, db: Db, k: nat, j: nat, t: Template)
    requires Accepting(v) && Clear(db.templates, j, t) && k < |RENAMES|
    requires Unambiguous(db.templates, RENAMES[k].0, RENAMES[k].1)
    ensures Rename(v, db, RENAMES[k].0, RENAMES[k].1).Done?
    ensures Clear(Rename(v, db, RENAMES[k].0, RENAMES[k].1).db.templates, j, t)
  {
    var ts, q := db.templates, ByName(RENAMES[k].0);
    if Found(ts, q) != {} && Found(ts, ByName(RENAMES[k].1)) == {} {
      OneIsOne(Found(ts, q));
      var i := First(ts, q);
      OneFound(ts, q, i);
      OldIsOwn(ts[i], k);
      Replaced(ts, i, ts[i].(name := RENAMES[k].1), j, t);
    }
  }

  lemma OldIsOwn(t: Template, k: nat)
    requires k < |RENAMES| && t.org == ORG && t.name == RENAMES[k].0
    ensures Own(t) && t.name !in NAMES && RENAMES[k].1 in NAMES
  {
    assert forall name :: name in NAMES ==> name[0] == 'a';
    assert t.name[0] == 'g';
  }

  /** Giving an own row a name of which there is none keeps the keys row and the names. */
  lemma Replaced(ts: seq<Template>, i: nat, t': Template, j: nat, t: Template)
    requires Clear(ts, j, t) && i < |ts| && Own(ts[i]) && t'.org == ORG && (Hits(SshKeys, t') ==> Hits(SshKeys, ts[i]))
    requires t'.name == ts[i].name || Found(ts, ByName(t'.name)) == {}
    ensures Clear(ts[i := t'], j, t)
  {
    FoundReplaced(ts, i, t', SshKeys);
    forall name | name in NAMES
      ensures |Found(ts[i := t'], ByName(name))| <= 1
    {
      FoundReplaced(ts, i, t', ByName(name));
      assert t'.name == name && t'.name == ts[i].name ==> i in Found(ts, ByName(name));
      var rows := Found(ts, ByName(name));
      assert Found(ts[i := t'], ByName(name)) == if t'.name == name then rows + {i} else rows - {i};
    }
  }

  lemma {:induction false} RenameAllUnambiguous(v: Checks, db: Db, n: nat, k: nat)
    requires n <= |RENAMES| && k < |RENAMES| && RenameAll(v, db, n).Done?
    ensures var ts := RenameAll(v, db, n).db.templates;
      if n > k then Unambiguous(db.templates, RENAMES[k].0, RENAMES[k].1)
      else Found(ts, ByName(RENAMES[k].0)) == Found(db.templates, ByName(RENAMES[k].0))
           && Found(ts, ByName(RENAMES[k].1)) == Found(db.templates, ByName(RENAMES[k].1))
  {
    if n > 0 {
      RenameAllUnambiguous(v, db, n - 1, k);
      if n - 1 != k { RenameOther(v, RenameAll(v, db, n - 1).db, n - 1, k); }
    }
  }

  lemma {:induction false} RenameAllClear(v: Checks, db: Db, n: nat, j: nat, t: Template)
    requires n <= |RENAMES| && Accepting(v) && Clear(db.templates, j, t)
    requires forall k :: 0 <= k < |RENAMES| ==> Unambiguous(db.templates, RENAMES[k].0, RENAMES[k].1)
    ensures RenameAll(v, db, n).Done? && Clear(RenameAll(v, db, n).db.templates, j, t)
  {
    if n > 0 {
      RenameAllClear(v, db, n - 1, j, t);
      RenameAllUnambiguous(v, db, n - 1, n - 1);
      RenameClear(v, RenameAll(v, db, n - 1).db, n - 1, j, t);
    }
  }

  lemma UpsertClear(v: Checks, db: Db, s: Spec, j: nat, t: Template)
    requires Accepting(v) && Clear(db.templates, j, t) && s.name in NAMES
    ensures Upsert(v, db, s).Done? && Clear(Upsert(v, db, s).db.templates, j, t)
  {
    var ts, q := db.templates, ByName(s.name);
    if Found(ts, q) == {} {
      FoundAppended(ts, Created(s), SshKeys);
      forall name | name in NAMES
        ensures |Found(ts + [Created(s)], ByName(name))| <= 1
      {
        FoundAppended(ts, Created(s), ByName(name));
        assert name == s.name ==> Found(ts + [Created(s)], ByName(name)) == {|ts|};
      }
    } else {
      var i := First(ts, q);
      Replaced(ts, i, Updated(ts[i], s), j, t);
    }
  }

  lemma {:induction false} UpsertAllClear(v: Checks, db: Db, specs: seq<Spec>, j: nat, t: Template)
    requires Accepting(v) && Clear(db.templates, j, t) && forall k :: 0 <= k < |specs| ==> specs[k].name in NAMES
    ensures UpsertAll(v, db, specs).Done? && Clear(UpsertAll(v, db, specs).db.templates, j, t)
  {
    if specs != [] {
      var n := |specs| - 1;
      UpsertAllClear(v, db, specs[..n], j, t);
      UpsertClear(v, UpsertAll(v, db, specs[..n]).db, specs[n], j, t);
    }
  }

  lemma {:induction false} AttachAllDone(v: Checks, db: Db, ids: Ids, devices: seq<string>)
    requires Accepting(v)
    ensures AttachAll(v, db, ids, devices).Done?
  {
    if devices != [] {
      AttachAllDone(v, db, ids, devices[..|devices| - 1]);
    }
  }

  lemma BeforeKeysClear(db: Db, site: Site, j: nat, t: Template)
    requires Accepting(site.checks) && Clear(db.templates, j, t)
    requires forall k :: 0 <= k < |RENAMES| ==> Unambiguous(db.templates, RENAMES[k].0, RENAMES[k].1)
    ensures BeforeKeys(db, site).Done? && Clear(BeforeKeys(db, site).db.templates, j, t)
  {
    var v := site.checks;
    SpecNames(site);
    RenameAllClear(v, db, |RENAMES|, j, t);
    var d1 := RenameAll(v, db, |RENAMES|).db;
    UpsertAllClear(v, d1, site.Specs()[..4], j, t);
    var d2 := UpsertAll(v, d1, site.Specs()[..4]).db;
    UpsertClear(v, Detach(d2, Row(d2.templates, MESH)), site.Specs()[4], j, t);
  }

  /** A run finishes if full_clean accepts everything, no name is ambiguous, and one SSH
      Keys row with files is there that the script does not overwrite. */
  lemma ScriptFinishes(db: Db, site: Site, j: nat, t: Template)
    requires Accepting(site.checks) && Clear(db.templates, j, t)
    requires forall old', new' :: Renamed(old', new') ==> Unambiguous(db.templates, old', new')
    ensures Script(db, site).Done?
  {
    forall k | 0 <= k < |RENAMES|
      ensures Unambiguous(db.templates, RENAMES[k].0, RENAMES[k].1)
    {
      assert Renamed(RENAMES[k].0, RENAMES[k].1);
    }
    BeforeKeysClear(db, site, j, t);
    var d := BeforeKeys(db, site).db;
    OneIfSingle(d.templates, SshKeys, j);
    if Ssh(site.checks, d, site.adminKeys).Done? {
      var d' := Ssh(site.checks, d, site.adminKeys).db;
      AttachAllDone(site.checks, d', IdsOf(d'.templates), site.devices);
    }
  }

  /** ... and never guesses which of several rows to rename. */
  lemma RenamesUnambiguous(db: Db, site: Site, old': string, new': string)
    requires Renamed(old', new') && Script(db, site).Done?
    ensures Unambiguous(db.templates, old', new')
  {
    var k := RenamedAt(old', new');
    RenameAllUnambiguous(site.checks, db, |RENAMES|, k);
  }

  // ------------------------------------------------------- the running script

  lemma {:induction false} MergeKeysPrefix(lines: seq<string>, keys: seq<string>, n: nat)
    requires n < |keys|
    ensures MergeKeys(lines, keys[..n + 1]) ==
            var before := MergeKeys(lines, keys[..n]);
            if keys[n] in before then before else before + [keys[n]]
    decreases n
  {
    if n == 0 {
      assert keys[..1] == [keys[0]] && keys[..1][1..] == [] && keys[..0] == [];
    } else {
      var rest := keys[1..];
      assert keys[..n + 1][1..] == rest[..n] && keys[..n][1..] == rest[..n - 1];
      assert rest[..n - 1 + 1] == rest[..n] && rest[n - 1] == keys[n];
      MergeKeysPrefix(if keys[0] in lines then lines else lines + [keys[0]], rest, n - 1);
    }
  }

  /** Merging adds nothing exactly when no key is missing. */
  lemma {:induction false} MergeIdle(lines: seq<string>, keys: seq<string>)
    ensures MergeKeys(lines, keys) == lines <==> forall k :: 0 <= k < |keys| ==> keys[k] in lines
    decreases |keys|
  {
    if keys != [] && keys[0] in lines {
      MergeIdle(lines, keys[1..]);
      assert keys == [keys[0]] + keys[1..];
    }
  }

  /** The key loop over one file's lines. */
  method AppendMissing(lines: seq<string>, keys: seq<string>) returns (merged: seq<string>, changed: bool)
    ensures merged == MergeKeys(lines, keys)
    ensures changed <==> exists k :: 0 <= k < |keys| && keys[k] !in lines
  {
    merged, changed := lines, false;
    for n := 0 to |keys|
      invariant merged == MergeKeys(lines, keys[..n])
      invariant changed <==> merged != lines
    {
      MergeKeysPrefix(lines, keys, n);
      if keys[n] !in merged {
        merged, changed := merged + [keys[n]], true;
      }
    }
    assert keys[..|keys|] == keys;
    MergeIdle(lines, keys);
  }

  /** The body of the file loop. */
  method MergeOne(f: File, keys: seq<string>) returns (merged: File, changed: bool)
    ensures merged == MergeFile(f, keys)
    ensures changed <==> !FileHasKeys(f, keys)
  {
    if f.path != AK_PATH {
      return f, false;
    }
    var lines;
    lines, changed := AppendMissing(KeyLines(f), keys);
    merged := f.(contents := Rewritten(lines));
  }

  lemma HasKeysStep(files: seq<File>, keys: seq<string>, n: nat)
    requires n < |files|
    ensures HasKeys(files[..n + 1], keys) <==> HasKeys(files[..n], keys) && FileHasKeys(files[n], keys)
    ensures MergeAll(files[..n + 1], keys) == MergeAll(files[..n], keys) + [MergeFile(files[n], keys)]
  {
    assert files[..n + 1][n] == files[n] && forall j :: 0 <= j < n ==> files[..n + 1][j] == files[..n][j];
  }

  /** The file loop. */
  method MergeFiles(old': seq<File>, keys: seq<string>) returns (files: seq<File>, skchanged: bool)
    ensures files == MergeAll(old', keys)
    ensures skchanged <==> !HasKeys(old', keys)
  {
    files, skchanged := [], false;
    for n := 0 to |old'|
      invariant files == MergeAll(old'[..n], keys)
      invariant skchanged <==> !HasKeys(old'[..n], keys)
    {
      HasKeysStep(old', keys, n);
      var f, changed := MergeOne(old'[n], keys);
      files, skchanged := files + [f], skchanged || changed;
    }
    assert old'[..|old'|] == old';
  }

  class Controller {
    const checks: Checks
    var db: Db

    constructor (checks: Checks, db: Db)
      ensures this.checks == checks && this.db == db
    {
      this.checks := checks;
      this.db := db;
    }

    method RenameTemplates() returns (ok: bool)
      modifies this
      ensures (if ok then Done(db) else Aborted(db)) == RenameAll(checks, old(db), |RENAMES|)
    {
      for n := 0 to |RENAMES|
        invariant RenameAll(checks, old(db), n) == Done(db)
      {
        var old', new' := RENAMES[n].0, RENAMES[n].1;
        var rows := Found(db.templates, ByName(old'));
        assert RenameAll(checks, old(db), n + 1) == Rename(checks, db, old', new');
        if rows == {} || Found(db.templates, ByName(new')) != {} {
          continue;
        }
        if |rows| != 1 {
          AbortedStays(checks, old(db), n + 1);
          return false;
        }
        var i := First(db.templates, ByName(old'));
        var t := db.templates[i].(name := new');
        if !checks.template(t) {
          AbortedStays(checks, old(db), n + 1);
          return false;
        }
        db := db.(templates := db.templates[i := t]);
      }
      return true;
    }

    /** update_or_create and full_clean: the name's one row is what was asked for, and
        no row of another name is touched. */
    method UpdateOrCreate(s: Spec) returns (ok: bool)
      modifies this
      ensures (if ok then Done(db) else Aborted(db)) == Upsert(checks, old(db), s)
      ensures ok ==> SpecHolds(checks, db.templates, s)
      ensures OthersKept(old(db).templates, db.templates, s.name)
      ensures db.devices == old(db).devices && db.configs == old(db).configs
    {
      ghost var db0 := db;
      UpsertKeeps(checks, db, s);
      if Upsert(checks, db, s).Done? {
        UpsertMakes(checks, db, s);
      }
      var rows := Found(db.templates, ByName(s.name));
      if |rows| > 1 {
        return false;
      }
      var i := First(db.templates, ByName(s.name));
      var t := if rows == {} then Created(s) else Updated(db.templates[i], s);
      if rows == {} {
        db := db.(templates := db.templates + [t]);
      } else {
        db := db.(templates := db.templates[i := t]);
      }
      return checks.template(t);
    }

    method DetachFromAll(id: nat)
      modifies this
      ensures db == Detach(old(db), id)
      ensures OnNoDevice(db, id)
    {
      var todo := db.configs.Keys;
      while todo != {}
        invariant todo <= old(db).configs.Keys
        invariant db == old(db).(configs := db.configs) && db.configs.Keys == old(db).configs.Keys
        invariant forall c :: c in db.configs ==>
          db.configs[c] == if c in todo then old(db).configs[c] else old(db).configs[c] - {id}
        decreases todo
      {
        var c :| c in todo;
        todo := todo - {c};
        db := db.(configs := db.configs[c := db.configs[c] - {id}]);
      }
      assert db.configs == Detach(old(db), id).configs;
    }

    /** The SSH Keys step: fatal unless there is one such row, with files. */
    method MergeSshKeys(keys: seq<string>) returns (ok: bool)
      modifies this
      ensures (if ok then Done(db) else Aborted(db)) == Ssh(checks, old(db), keys)
      ensures ok && GoodKeys(keys) ==> KeysMerged(old(db), db, keys)
      ensures !ok ==> db == old(db)
    {
      if GoodKeys(keys) && Ssh(checks, db, keys).Done? {
        SshMakes(checks, db, keys);
      }
      if |Found(db.templates, SshKeys)| != 1 {
        return false;
      }
      var i := First(db.templates, SshKeys);
      var t := db.templates[i];
      if t.config.files.None? {
        return false;   // sk.config["files"]
      }
      var files, skchanged := MergeFiles(t.config.files.value, keys);
      if skchanged {
        t := t.(config := t.config.(files := Some(files)));
        if !checks.template(t) {
          return false;
        }
        db := db.(templates := db.templates[i := t]);
      }
      return true;
    }

    method AttachDevices(ids: Ids, devices: seq<string>) returns (ok: bool)
      modifies this
      ensures (if ok then Done(db) else Aborted(db)) == AttachAll(checks, old(db), ids, devices)
    {
      for n := 0 to |devices|
        invariant AttachAll(checks, old(db), ids, devices[..n]) == Done(db)
      {
        assert devices[..n + 1][..n] == devices[..n];
        assert AttachAll(checks, old(db), ids, devices[..n + 1]) == Attach(checks, db, ids, devices[n]);
        ok := AttachDevice(ids, devices[n]);
        if !ok {
          AttachAbortedStays(checks, old(db), ids, devices, n + 1);
          return;
        }
      }
      assert devices[..|devices|] == devices;
      return true;
    }

    /** The body of the attach loop. */
    method AttachDevice(ids: Ids, device: string) returns (ok: bool)
      modifies this
      ensures (if ok then Done(db) else Aborted(db)) == Attach(checks, old(db), ids, device)
    {
      if device !in db.devices {
        return true;
      }
      var d := db.devices[device];
      var c := if d in db.configs then db.configs[d] else Defaults(db.templates);
      c := c + Want(ids, device);
      if device == TENWRT_DEVICE && ids.puck in c {
        c := c - {ids.puck};
      }
      if device == TENWRT_DEVICE && ids.presence in c {
        c := c - {ids.presence};
      }
      assert c == (if d in db.configs then db.configs[d] else Defaults(db.templates))
                  + Want(ids, device) - Unwanted(ids, device);
      db := db.(configs := db.configs[d := c]);
      return checks.config(d, db.templates, c);
    }

    /** The whole script. Rows never move, so the rows it looked up on the way are
        those that the names find at the end. */
    method Run(site: Site) returns (ok: bool)
      requires site.checks == checks
      modifies this
      ensures (if ok then Done(db) else Aborted(db)) == Script(old(db), site)
      ensures ok && old(DistinctDevices(db)) && GoodKeys(site.adminKeys) ==> Settled(db, site) && Intended(db, site)
    {
      ghost var db0 := db;
      ok := RunSteps(site);
      if ok && DistinctDevices(db0) && GoodKeys(site.adminKeys) {
        ScriptSettles(db0, site);
        SettledIntends(db, site);
      }
    }

    method RunSteps(site: Site) returns (ok: bool)
      requires site.checks == checks
      modifies this
      ensures (if ok then Done(db) else Aborted(db)) == Script(old(db), site)
    {
      ok := RenameTemplates();
      if !ok {
        return;
      }
      ok := UpsertFirst(site.Specs()[..4]);
      if !ok {
        return;
      }
      DetachFromAll(Row(db.templates, MESH));
      ok := UpdateOrCreate(site.Specs()[4]);
      if !ok {
        return;
      }
      ok := MergeSshKeys(site.adminKeys);
      if !ok {
        return;
      }
      ok := AttachDevices(IdsOf(db.templates), site.devices);
    }

    method UpsertFirst(specs: seq<Spec>) returns (ok: bool)
      modifies this
      ensures (if ok then Done(db) else Aborted(db)) == UpsertAll(checks, old(db), specs)
    {
      for n := 0 to |specs|
        invariant UpsertAll(checks, old(db), specs[..n]) == Done(db)
      {
        assert specs[..n + 1][..n] == specs[..n];
        assert UpsertAll(checks, old(db), specs[..n + 1]) == Upsert(checks, db, specs[n]);
        ok := UpdateOrCreate(specs[n]);
        if !ok {
          UpsertAbortedStays(checks, old(db), specs, n + 1);
          return;
        }
      }
      assert specs[..|specs|] == specs;
      return true;
    }
  }

  lemma {:induction false} AttachAbortedStays(v: Checks, db: Db, ids: Ids, devices: seq<string>, n: nat)
    requires n <= |devices| && AttachAll(v, db, ids, devices[..n]).Aborted?
    ensures AttachAll(v, db, ids, devices) == AttachAll(v, db, ids, devices[..n])
    decreases |devices| - n
  {
    if n < |devices| {
      assert devices[..n + 1][..n] == devices[..n];
      AttachAbortedStays(v, db, ids, devices, n + 1);
    } else {
      assert devices[..n] == devices;
    }
  }

  lemma {:induction false} AbortedStays(v: Checks, db: Db, n: nat)
    requires n <= |RENAMES| && RenameAll(v, db, n).Aborted?
    ensures RenameAll(v, db, |RENAMES|) == RenameAll(v, db, n)
    decreases |RENAMES| - n
  {
    if n < |RENAMES| {
      AbortedStays(v, db, n + 1);
    }
  }

  lemma {:induction false} UpsertAbortedStays(v: Checks, db: Db, specs: seq<Spec>, n: nat)
    requires n <= |specs| && UpsertAll(v, db, specs[..n]).Aborted?
    ensures UpsertAll(v, db, specs) == UpsertAll(v, db, specs[..n])
    decreases |specs| - n
  {
    if n < |specs| {
      assert specs[..n + 1][..n] == specs[..n];
      assert UpsertAll(v, db, specs[..n + 1]) == UpsertAll(v, db, specs[..n]);
      UpsertAbortedStays(v, db, specs, n + 1);
    } else {
      assert specs[..n] == specs;
    }
  }
}
