/**
  Replay: a namespace's history is written out and replayed version by version into a fresh one.
  `apply` of the engine is taken to record the given version and make it current.
 */
module Replay {
  import opened Text
  import opened Commands
  import opened Handlers

  datatype Record = Record(state: EntryState, value: Bytes, metadata: Json, updatedAt: nat, actor: Bytes)

  datatype Numbered = Numbered(version: nat, record: Record)

  /** Versions in ascending order, as the ordered map iterates them. */
  datatype KeyState = KeyState(current: nat, versions: seq<Numbered>)

  type Keys = map<Bytes, KeyState>

  datatype NamespaceState = NamespaceState(config: Json, createdAt: nat, keys: Keys)

  datatype ExportVersion = ExportVersion(state: nat, value: Bytes, metadata: Json, updatedAt: nat, actor: Bytes)

  datatype ExportEntry = ExportEntry(key: Bytes, versions: seq<ExportVersion>)

  // ---- The engine ----

  /** Ordered insertion; an existing version is replaced. */
  function Inserted(vs: seq<Numbered>, n: Numbered): seq<Numbered> {
    if vs == [] || vs[|vs| - 1].version < n.version then vs + [n]
    else if vs[|vs| - 1].version == n.version then vs[..|vs| - 1] + [n]
    else Inserted(vs[..|vs| - 1], n) + [vs[|vs| - 1]]
  }

  function Applied(keys: Keys, key: Bytes, n: Numbered): Keys {
    var versions := if key in keys then keys[key].versions else [];
    keys[key := KeyState(n.version, Inserted(versions, n))]
  }

  function NextVersion(keys: Keys, key: Bytes): nat {
    if key in keys then keys[key].current + 1 else 1
  }

  /** The record that replaying one exported version writes; unknown states write nothing. */
  function RecordFor(v: ExportVersion, stamp: nat): Option<Record> {
    if v.state == 0 then Some(Record(Active, v.value, v.metadata, stamp, v.actor))
    else if v.state == 1 then Some(Record(Deleted, [], JNull, stamp, v.actor))
    else None
  }

  function ReplayOne(keys: Keys, key: Bytes, v: ExportVersion, stamp: nat): Keys {
    match RecordFor(v, stamp)
    case None => keys
    case Some(record) => Applied(keys, key, Numbered(NextVersion(keys, key), record))
  }

  function ReplayVersions(keys: Keys, key: Bytes, vs: seq<ExportVersion>, stamp: nat): Keys
    decreases |vs|
  {
    if vs == [] then keys else ReplayVersions(ReplayOne(keys, key, vs[0], stamp), key, vs[1..], stamp)
  }

  function ReplayEntries(keys: Keys, entries: seq<ExportEntry>, stamp: nat): Keys
    decreases |entries|
  {
    if entries == [] then keys
    else ReplayEntries(ReplayVersions(keys, entries[0].key, entries[0].versions, stamp), entries[1..], stamp)
  }

  // ---- Export ----

  function ExportedVersion(r: Record): ExportVersion {
    ExportVersion(if r.state.Active? then 0 else 1, r.value, r.metadata, r.updatedAt, r.actor)
  }

  function ExportedVersions(vs: seq<Numbered>): (r: seq<ExportVersion>)
    ensures |r| == |vs| && forall i :: 0 <= i < |vs| ==> r[i] == ExportedVersion(vs[i].record)
  {
    seq(|vs|, i requires 0 <= i < |vs| => ExportedVersion(vs[i].record))
  }

  /** Entries in whatever order the concurrent map iterates its keys. */
  function Exported(keys: Keys, order: seq<Bytes>): (r: seq<ExportEntry>)
    requires forall i :: 0 <= i < |order| ==> order[i] in keys
    ensures |r| == |order|
    ensures forall i :: 0 <= i < |order| ==> r[i] == ExportEntry(order[i], ExportedVersions(keys[order[i]].versions))
  {
    seq(|order|, i requires 0 <= i < |order| => ExportEntry(order[i], ExportedVersions(keys[order[i]].versions)))
  }

  /** A listing of all keys, each once. */
  predicate Lists(order: seq<Bytes>, keys: Keys) {
    && (forall i :: 0 <= i < |order| ==> order[i] in keys)
    && (forall k :: k in keys ==> k in order)
    && forall i, j :: 0 <= i < j < |order| ==> order[i] != order[j]
  }

  // ---- What replay preserves ----

  /** Same state and actor, the time of the replay, and for active versions the same value and metadata. */
  predicate SameRecord(a: Record, b: Record, stamp: nat) {
    && a.state == b.state && a.actor == b.actor && b.updatedAt == stamp
    && if a.state.Active? then a.value == b.value && a.metadata == b.metadata else b.value == [] && b.metadata == JNull
  }

  /** The replayed key holds the source's versions in order, numbered 1 to n. */
  predicate SameHistory(source: KeyState, copy: KeyState, stamp: nat) {
    && |copy.versions| == |source.versions| == copy.current
    && forall i :: 0 <= i < |copy.versions| ==>
         copy.versions[i].version == i + 1 && SameRecord(source.versions[i].record, copy.versions[i].record, stamp)
  }

  /** A key whose versions are numbered 1 to its current version. */
  predicate Contiguous(k: KeyState) {
    |k.versions| == k.current && forall i :: 0 <= i < |k.versions| ==> k.versions[i].version == i + 1
  }

  /** The key state that a list of exported versions produces in a fresh place. */
  function FreshHistory(vs: seq<ExportVersion>, stamp: nat): (k: KeyState)
    requires forall i :: 0 <= i < |vs| ==> vs[i].state <= 1
    ensures Contiguous(k) && k.current == |vs|
    ensures forall i :: 0 <= i < |vs| ==> k.versions[i].record == RecordFor(vs[i], stamp).value
  {
    KeyState(|vs|, seq(|vs|, i requires 0 <= i < |vs| => Numbered(i + 1, RecordFor(vs[i], stamp).value)))
  }

  lemma AppendOne(keys: Keys, key: Bytes, done: seq<ExportVersion>, v: ExportVersion, stamp: nat)
    requires forall i :: 0 <= i < |done| ==> done[i].state <= 1
    requires v.state <= 1
    requires if done == [] then key !in keys else key in keys && keys[key] == FreshHistory(done, stamp)
    ensures ReplayOne(keys, key, v, stamp) == keys[key := FreshHistory(done + [v], stamp)]
  {
    var all := FreshHistory(done + [v], stamp);
    var n := Numbered(|done| + 1, RecordFor(v, stamp).value);
    var versions := if key in keys then keys[key].versions else [];
    assert versions + [n] == all.versions;
    assert Inserted(versions, n) == versions + [n];
  }

  lemma {:induction false} VersionsReplayed(keys: Keys, key: Bytes, done: seq<ExportVersion>, vs: seq<ExportVersion>,
                                            stamp: nat)
    requires forall i :: 0 <= i < |done| ==> done[i].state <= 1
    requires forall i :: 0 <= i < |vs| ==> vs[i].state <= 1
    requires if done == [] then key !in keys else key in keys && keys[key] == FreshHistory(done, stamp)
    ensures ReplayVersions(keys, key, vs, stamp) ==
            if done + vs == [] then keys else keys[key := FreshHistory(done + vs, stamp)]
    decreases |vs|
  {
    hide ReplayOne, FreshHistory;
    if vs == [] {
      assert done + vs == done;
    } else {
      AppendOne(keys, key, done, vs[0], stamp);
      var keys' := ReplayOne(keys, key, vs[0], stamp);
      assert (done + [vs[0]]) + vs[1..] == done + vs;
      VersionsReplayed(keys', key, done + [vs[0]], vs[1..], stamp);
    }
  }

  /** The keys a replay of distinct entries adds to those already there. */
  lemma {:induction false} EntriesReplayed(keys: Keys, source: Keys, order: seq<Bytes>, stamp: nat)
    requires forall i :: 0 <= i < |order| ==> order[i] in source && order[i] !in keys
    requires forall i, j :: 0 <= i < j < |order| ==> order[i] != order[j]
    ensures var r := ReplayEntries(keys, Exported(source, order), stamp);
            && (forall k :: k in r <==> k in keys || (k in order && source[k].versions != []))
            && (forall k :: k in keys ==> r[k] == keys[k])
            && (forall k :: k in r && k !in keys ==> r[k] == FreshHistory(ExportedVersions(source[k].versions), stamp))
    decreases |order|
  {
    hide FreshHistory, ReplayVersions;
    if order != [] {
      var k0 := order[0];
      var vs := ExportedVersions(source[k0].versions);
      VersionsReplayed(keys, k0, [], vs, stamp);
      assert [] + vs == vs;
      var keys' := ReplayVersions(keys, k0, vs, stamp);
      assert Exported(source, order)[1..] == Exported(source, order[1..]);
      assert forall k :: k in order <==> k == k0 || k in order[1..];
      EntriesReplayed(keys', source, order[1..], stamp);
    }
  }

  /**
    Replay preserves history: whatever order the keys are listed in, replaying an export into a fresh
    namespace gives every key that had versions the same history numbered 1 to n, and no other key;
    version numbers are unchanged where the source was contiguous from 1.
   */
  lemma ReplayPreservesHistory(source: Keys, order: seq<Bytes>, stamp: nat)
    requires Lists(order, source)
    ensures var copy := ReplayEntries(map[], Exported(source, order), stamp);
            && (forall k :: k in copy <==> k in source && source[k].versions != [])
            && (forall k :: k in copy ==> SameHistory(source[k], copy[k], stamp) && Contiguous(copy[k]))
            && (forall k :: k in copy && Contiguous(source[k]) ==>
                  copy[k].current == source[k].current
                  && forall i :: 0 <= i < |source[k].versions| ==>
                       copy[k].versions[i].version == source[k].versions[i].version)
  {
    hide ReplayEntries;
    EntriesReplayed(map[], source, order, stamp);
  }

  // ---- Other files ----

  /** The versions in a known state. */
  function KnownOnly(vs: seq<ExportVersion>): seq<ExportVersion> {
    if vs == [] then [] else (if vs[0].state <= 1 then [vs[0]] else []) + KnownOnly(vs[1..])
  }

  /** Versions in an unknown state count for nothing: no record is written and no number is used up. */
  lemma {:induction false} UnknownIsSkipped(keys: Keys, key: Bytes, vs: seq<ExportVersion>, stamp: nat)
    ensures ReplayVersions(keys, key, vs, stamp) == ReplayVersions(keys, key, KnownOnly(vs), stamp)
    decreases |vs|
  {
    hide Applied, NextVersion;
    if vs != [] {
      var known := KnownOnly(vs[1..]);
      UnknownIsSkipped(ReplayOne(keys, key, vs[0], stamp), key, vs[1..], stamp);
      if vs[0].state <= 1 {
        assert ([vs[0]] + known)[1..] == known;
      } else {
        assert [] + known == known;
      }
    }
  }

  predicate Ascending(vs: seq<Numbered>) {
    forall i, j :: 0 <= i < j < |vs| ==> vs[i].version < vs[j].version
  }

  /** Writing a record keeps the versions in order, sets its own and leaves every other. */
  lemma {:induction false} InsertedExactly(vs: seq<Numbered>, n: Numbered, m: Numbered)
    requires Ascending(vs)
    ensures Ascending(Inserted(vs, n))
    ensures m in Inserted(vs, n) <==> m == n || (m in vs && m.version != n.version)
    decreases |vs|
  {
    if vs != [] {
      var init, last := vs[..|vs| - 1], vs[|vs| - 1];
      InsertedExactly(init, n, m);
      assert vs == init + [last];
      forall i | 0 <= i < |Inserted(init, n)|
        ensures Inserted(init, n)[i] == n || Inserted(init, n)[i] in init
      {
        InsertedExactly(init, n, Inserted(init, n)[i]);
      }
    }
  }
}
