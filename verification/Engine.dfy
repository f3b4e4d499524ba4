/** The storage engine's index as replay sees it: all namespaces together, written to one record at a time. */
module Engine {
  import opened Text
  import opened Commands
  import opened Replay

  /** A namespace to be written: from an export file, or collected before the old data were wiped. */
  datatype Snapshot = Snapshot(name: Bytes, config: Json, createdAt: nat, entries: seq<ExportEntry>)

  type Namespaces = map<Bytes, NamespaceState>

  // ---- The engine, all namespaces together ----

  function Created(all: Namespaces, s: Snapshot): Namespaces {
    all[s.name := NamespaceState(s.config, s.createdAt, map[])]
  }

  /** One record written to a namespace, under the version after the key's current one. */
  function Written(all: Namespaces, name: Bytes, key: Bytes, v: ExportVersion, stamp: nat): Namespaces
    requires name in all
  {
    all[name := all[name].(keys := ReplayOne(all[name].keys, key, v, stamp))]
  }

  function WrittenVersions(all: Namespaces, name: Bytes, key: Bytes, vs: seq<ExportVersion>, stamp: nat)
      : (r: Namespaces)
    requires name in all
    ensures name in r
    decreases |vs|
  {
    if vs == [] then all else WrittenVersions(Written(all, name, key, vs[0], stamp), name, key, vs[1..], stamp)
  }

  function WrittenEntries(all: Namespaces, name: Bytes, entries: seq<ExportEntry>, stamp: nat): (r: Namespaces)
    requires name in all
    ensures name in r
    decreases |entries|
  {
    if entries == [] then all
    else WrittenEntries(WrittenVersions(all, name, entries[0].key, entries[0].versions, stamp), name, entries[1..],
        stamp)
  }

  function Rekeyed(all: Namespaces, snapshots: seq<Snapshot>, stamp: nat): Namespaces
    decreases |snapshots|
  {
    if snapshots == [] then all
    else
      var s := snapshots[0];
      Rekeyed(WrittenEntries(Created(all, s), s.name, s.entries, stamp), snapshots[1..], stamp)
  }

  class StorageEngine {
    var namespaces: Namespaces

    constructor ()
      ensures namespaces == map[]
    {
      namespaces := map[];
    }

    method CreateNamespace(s: Snapshot)
      modifies this
      ensures namespaces == Created(old(namespaces), s)
    {
      namespaces := namespaces[s.name := NamespaceState(s.config, s.createdAt, map[])];
    }

    /** Looks up the key's current version and writes the record under the next one. */
    method Write(name: Bytes, key: Bytes, v: ExportVersion, stamp: nat)
      requires name in namespaces
      modifies this
      ensures namespaces == Written(old(namespaces), name, key, v, stamp)
    {
      var ns := namespaces[name];
      var version := NextVersion(ns.keys, key);
      var record := RecordFor(v, stamp);
      if record.Some? {
        namespaces := namespaces[name := ns.(keys := Applied(ns.keys, key, Numbered(version, record.value)))];
      }
    }

    /** The three nested loops of `run_rekey`. */
    method ReplayAll(snapshots: seq<Snapshot>, stamp: nat)
      modifies this
      ensures namespaces == Rekeyed(old(namespaces), snapshots, stamp)
    {
      hide Created, Written;
      var i := 0;
      while i < |snapshots|
        invariant 0 <= i <= |snapshots|
        invariant Rekeyed(namespaces, snapshots[i..], stamp) == Rekeyed(old(namespaces), snapshots, stamp)
      {
        var s := snapshots[i];
        assert snapshots[i..][1..] == snapshots[i + 1..];
        CreatedIsThere(namespaces, s);
        ghost var begun := Created(namespaces, s);
        CreateNamespace(s);
        ReplayNamespace(s, stamp);
        assert namespaces == WrittenEntries(begun, s.name, s.entries, stamp);
        i := i + 1;
      }
    }

    method ReplayNamespace(s: Snapshot, stamp: nat)
      requires s.name in namespaces
      modifies this
      ensures namespaces == WrittenEntries(old(namespaces), s.name, s.entries, stamp)
    {
      hide Written;
      ghost var goal := WrittenEntries(namespaces, s.name, s.entries, stamp);
      var i := 0;
      assert s.entries[0..] == s.entries;
      while i < |s.entries|
        invariant 0 <= i <= |s.entries| && s.name in namespaces
        invariant WrittenEntries(namespaces, s.name, s.entries[i..], stamp) == goal
      {
        var key, vs := s.entries[i].key, s.entries[i].versions;
        assert s.entries[i..][1..] == s.entries[i + 1..];
        ghost var done := WrittenVersions(namespaces, s.name, key, vs, stamp);
        assert vs[0..] == vs;
        var j := 0;
        while j < |vs|
          invariant 0 <= j <= |vs| && s.name in namespaces
          invariant WrittenVersions(namespaces, s.name, key, vs[j..], stamp) == done
        {
          assert vs[j..][1..] == vs[j + 1..];
          WrittenIsThere(namespaces, s.name, key, vs[j], stamp);
          Write(s.name, key, vs[j], stamp);
          j := j + 1;
        }
        i := i + 1;
      }
    }
  }

  lemma CreatedIsThere(all: Namespaces, s: Snapshot)
    ensures s.name in Created(all, s)
  {
  }

  lemma WrittenIsThere(all: Namespaces, name: Bytes, key: Bytes, v: ExportVersion, stamp: nat)
    requires name in all
    ensures name in Written(all, name, key, v, stamp)
  {
  }

  // ---- One namespace at a time ----

  lemma {:induction false} VersionsStayInside(all: Namespaces, name: Bytes, key: Bytes, vs: seq<ExportVersion>,
                                              stamp: nat)
    requires name in all
    ensures WrittenVersions(all, name, key, vs, stamp)
            == all[name := all[name].(keys := ReplayVersions(all[name].keys, key, vs, stamp))]
    decreases |vs|
  {
    hide ReplayOne;
    if vs == [] {
      assert all == all[name := all[name]];
    } else {
      VersionsStayInside(Written(all, name, key, vs[0], stamp), name, key, vs[1..], stamp);
    }
  }

  /** Writing a namespace's entries is replaying them into that namespace; no other is touched. */
  lemma {:induction false} EntriesStayInside(all: Namespaces, name: Bytes, entries: seq<ExportEntry>, stamp: nat)
    requires name in all
    ensures WrittenEntries(all, name, entries, stamp)
            == all[name := all[name].(keys := ReplayEntries(all[name].keys, entries, stamp))]
    decreases |entries|
  {
    hide WrittenVersions, ReplayVersions;
    if entries == [] {
      assert all == all[name := all[name]];
    } else {
      var e := entries[0];
      VersionsStayInside(all, name, e.key, e.versions, stamp);
      EntriesStayInside(WrittenVersions(all, name, e.key, e.versions, stamp), name, entries[1..], stamp);
    }
  }
}
