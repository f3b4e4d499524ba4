/**
  Offline rekeying: a snapshot of every namespace is replayed, version by version, into one fresh engine.
 */
module Rekey {
  import opened Text
  import opened Replay
  import opened Engine

  /** The names in the order the old engine lists them, and each namespace's keys in theirs. */
  ghost predicate ListsAll(names: seq<Bytes>, orders: map<Bytes, seq<Bytes>>, source: Namespaces) {
    && (forall i, j :: 0 <= i < j < |names| ==> names[i] != names[j])
    && (forall n :: n in source <==> n in names)
    && (forall n :: n in source ==> n in orders && Lists(orders[n], source[n].keys))
  }

  function SnapshotOf(n: Bytes, ns: NamespaceState, order: seq<Bytes>): Snapshot
    requires Lists(order, ns.keys)
  {
    Snapshot(n, ns.config, ns.createdAt, Exported(ns.keys, order))
  }

  function Collected(names: seq<Bytes>, orders: map<Bytes, seq<Bytes>>, source: Namespaces): (r: seq<Snapshot>)
    requires forall i :: 0 <= i < |names| ==>
               names[i] in source && names[i] in orders && Lists(orders[names[i]], source[names[i]].keys)
    ensures |r| == |names|
  {
    if names == [] then []
    else [SnapshotOf(names[0], source[names[0]], orders[names[0]])] + Collected(names[1..], orders, source)
  }

  /** The namespace was carried over: config, creation time and every key's history. */
  ghost predicate SameNamespace(source: NamespaceState, copy: NamespaceState, stamp: nat) {
    && copy.config == source.config && copy.createdAt == source.createdAt
    && (forall k :: k in copy.keys <==> k in source.keys && source.keys[k].versions != [])
    && (forall k :: k in copy.keys ==> SameHistory(source.keys[k], copy.keys[k], stamp))
  }

  lemma {:induction false} RestIsCarried(all: Namespaces, names: seq<Bytes>, orders: map<Bytes, seq<Bytes>>,
                                         source: Namespaces, stamp: nat)
    requires forall i, j :: 0 <= i < j < |names| ==> names[i] != names[j]
    requires forall i :: 0 <= i < |names| ==>
               names[i] in source && names[i] in orders && Lists(orders[names[i]], source[names[i]].keys)
    ensures var r := Rekeyed(all, Collected(names, orders, source), stamp);
            && (forall n :: n in r <==> n in all || n in names)
            && (forall n :: n in all && n !in names ==> r[n] == all[n])
            && (forall n :: n in names ==> SameNamespace(source[n], r[n], stamp))
    decreases |names|
  {
    hide SameNamespace, WrittenEntries, ReplayEntries, Exported, Lists;
    if names != [] {
      var n := names[0];
      var s := SnapshotOf(n, source[n], orders[n]);
      var begun := Created(all, s);
      var next := WrittenEntries(begun, n, s.entries, stamp);
      EntriesStayInside(begun, n, s.entries, stamp);
      CopyIsSame(source[n], orders[n], stamp);
      assert Collected(names, orders, source)[0] == s
             && Collected(names, orders, source)[1..] == Collected(names[1..], orders, source);
      RestIsCarried(next, names[1..], orders, source, stamp);
    }
  }

  lemma CopyIsSame(ns: NamespaceState, order: seq<Bytes>, stamp: nat)
    requires Lists(order, ns.keys)
    ensures SameNamespace(ns,
            NamespaceState(ns.config, ns.createdAt, ReplayEntries(map[], Exported(ns.keys, order), stamp)), stamp)
  {
    hide ReplayEntries, SameHistory;
    ReplayPreservesHistory(ns.keys, order, stamp);
  }

  /**
    Replaying everything into one fresh engine carries over every namespace, whatever the order of
    namespaces and keys, and adds no other.
   */
  lemma RekeyPreservesHistory(source: Namespaces, names: seq<Bytes>, orders: map<Bytes, seq<Bytes>>, stamp: nat)
    requires ListsAll(names, orders, source)
    ensures var r := Rekeyed(map[], Collected(names, orders, source), stamp);
            r.Keys == source.Keys && forall n :: n in source ==> SameNamespace(source[n], r[n], stamp)
  {
    hide SameNamespace, Rekeyed, Collected, Lists;
    RestIsCarried(map[], names, orders, source, stamp);
  }
}
