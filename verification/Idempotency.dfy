/** The map from request ids to replayable response frames. */
module Idempotency {
  import opened Text
  import opened Frames

  const TTL_SECS := 300
  const NANOS_PER_SEC := 1_000_000_000

  /** A cached frame and the instant, in nanoseconds, at which it was stored. */
  datatype Cached = Cached(frame: Frame, createdAt: nat)

  type Cache = map<Bytes, Cached>

  /** Whole seconds since the entry was stored. */
  function AgeSecs(c: Cached, now: nat): nat {
    if now < c.createdAt then 0 else (now - c.createdAt) / NANOS_PER_SEC
  }

  predicate Fresh(c: Cached, now: nat) {
    AgeSecs(c, now) < TTL_SECS
  }

  /** What `get` returns. */
  function Found(m: Cache, id: Bytes, now: nat): Option<Frame> {
    if id in m && Fresh(m[id], now) then Some(m[id].frame) else None
  }

  /** What `get` leaves: an expired entry is removed on the way. */
  function AfterGet(m: Cache, id: Bytes, now: nat): Cache {
    if id in m && !Fresh(m[id], now) then m - {id} else m
  }

  function AfterInsert(m: Cache, id: Bytes, frame: Frame, now: nat): Cache {
    m[id := Cached(frame, now)]
  }

  /** What `prune` leaves when it looks at the entry of each id at the given instant. */
  function AfterPrune(m: Cache, seen: Bytes -> nat): Cache {
    map id | id in m && Fresh(m[id], seen(id)) :: m[id]
  }

  class IdempotencyMap {
    var entries: Cache

    constructor ()
      ensures entries == map[]
    {
      entries := map[];
    }

    method Get(id: Bytes, now: nat) returns (r: Option<Frame>)
      modifies this
      ensures r == Found(old(entries), id, now)
      ensures entries == AfterGet(old(entries), id, now)
      ensures r.Some? <==> id in old(entries) && now < old(entries)[id].createdAt + 300_000_000_000
      ensures entries == if r.Some? then old(entries) else old(entries) - {id}
    {
      if id !in entries {
        return None;
      }
      var entry := entries[id];
      if AgeSecs(entry, now) >= TTL_SECS {
        entries := entries - {id};
        return None;
      }
      return Some(entry.frame);
    }

    method Insert(id: Bytes, frame: Frame, now: nat)
      modifies this
      ensures entries == AfterInsert(old(entries), id, frame, now)
    {
      entries := entries[id := Cached(frame, now)];
    }

    /** `retain` visits every entry once, in no particular order, and reads the clock for each. */
    method Prune(clock: nat -> nat, first: nat) returns (ghost reading: map<Bytes, nat>, next: nat)
      modifies this
      ensures reading.Keys == old(entries).Keys && forall id :: id in reading ==> first <= reading[id] < next
      ensures entries == AfterPrune(old(entries), id => if id in reading then clock(reading[id]) else 0)
      ensures forall id :: id in old(entries) ==>
                (id in entries <==> clock(reading[id]) < old(entries)[id].createdAt + 300_000_000_000)
    {
      hide Fresh;
      var pending := entries.Keys;
      reading, next := map[], first;
      while pending != {}
        invariant pending <= entries.Keys <= old(entries).Keys
        invariant reading.Keys == old(entries).Keys - pending && first <= next
        invariant forall id :: id in reading ==> first <= reading[id] < next
        invariant forall id :: id in reading ==> (id in entries <==> Fresh(old(entries)[id], clock(reading[id])))
        invariant forall id :: id in entries ==> entries[id] == old(entries)[id]
        decreases |pending|
      {
        var id :| id in pending;
        reading := reading[id := next];
        Visit(id, clock(next));
        next := next + 1;
        pending := pending - {id};
      }
      forall id | id in old(entries)
        ensures id in entries <==> clock(reading[id]) < old(entries)[id].createdAt + 300_000_000_000
      {
        FreshExactly(old(entries)[id], clock(reading[id]));
      }
    }

    /** The entry stays if it is fresh. */
    method Visit(id: Bytes, now: nat)
      requires id in entries
      modifies this
      ensures entries == if Fresh(old(entries)[id], now) then old(entries) else old(entries) - {id}
    {
      if AgeSecs(entries[id], now) >= TTL_SECS {
        entries := entries - {id};
      }
    }
  }

  // ---- Against a simple log ----

  datatype Op = Lookup(id: Bytes) | Store(id: Bytes, frame: Frame) | Sweep(seen: Bytes -> nat)

  /** An operation with the instant at which it was done. A sweep looks at each entry at an instant of its own. */
  datatype Event = Event(op: Op, at: nat)

  function Step(m: Cache, e: Event): Cache {
    match e.op
    case Lookup(id) => AfterGet(m, id, e.at)
    case Store(id, frame) => AfterInsert(m, id, frame, e.at)
    case Sweep(seen) => AfterPrune(m, seen)
  }

  /** The map after a run from empty. */
  function Run(log: seq<Event>): Cache {
    if log == [] then map[] else Step(Run(log[..|log| - 1]), log[|log| - 1])
  }

  /** The latest store for an id, nothing else considered. */
  function LastStored(log: seq<Event>, id: Bytes): Option<Cached> {
    if log == [] then None
    else
      var e := log[|log| - 1];
      if e.op.Store? && e.op.id == id then Some(Cached(e.op.frame, e.at)) else LastStored(log[..|log| - 1], id)
  }

  /** The clock does not run backwards, and no sweep looks at an entry after it was done. */
  ghost predicate Ordered(log: seq<Event>) {
    && (forall i, j :: 0 <= i < j < |log| ==> log[i].at <= log[j].at)
    && forall i, id :: 0 <= i < |log| && log[i].op.Sweep? ==> log[i].op.seen(id) <= log[i].at
  }

  predicate NotBefore(log: seq<Event>, now: nat) {
    log == [] || log[|log| - 1].at <= now
  }

  /** An entry is fresh for exactly 300 seconds, to the nanosecond. */
  lemma FreshExactly(c: Cached, now: nat)
    ensures Fresh(c, now) <==> now < c.createdAt + 300_000_000_000
  {
  }

  /** A lookup finds exactly the entries that are there and younger than that. */
  lemma FoundExactly(m: Cache, id: Bytes, now: nat)
    ensures Found(m, id, now).Some? <==> id in m && now < m[id].createdAt + 300_000_000_000
    ensures Found(m, id, now).Some? ==> Found(m, id, now).value == m[id].frame
  {
    if id in m {
      FreshExactly(m[id], now);
    }
  }

  lemma FreshnessDecays(c: Cached, before: nat, now: nat)
    requires before <= now && Fresh(c, now)
    ensures Fresh(c, before)
  {
    hide Fresh;
    FreshExactly(c, before);
    FreshExactly(c, now);
  }

  /** Every entry is the last store of its id, and a missing one has expired. */
  lemma {:induction false} RunMatchesLog(log: seq<Event>, id: Bytes, now: nat)
    requires Ordered(log) && NotBefore(log, now)
    ensures id in Run(log) ==> LastStored(log, id) == Some(Run(log)[id])
    ensures id !in Run(log) && LastStored(log, id).Some? ==> !Fresh(LastStored(log, id).value, now)
    decreases |log|
  {
    hide AgeSecs;
    if log != [] {
      var init, e := log[..|log| - 1], log[|log| - 1];
      RunMatchesLog(init, id, e.at);
      var last := LastStored(init, id);
      if last.Some? && Fresh(last.value, now) {
        FreshnessDecays(last.value, e.at, now);
        if e.op.Sweep? {
          FreshnessDecays(last.value, e.op.seen(id), now);
        }
      }
    }
  }

  /**
    Refinement: after any interleaving of lookups, stores and sweeps with a clock that does not run
    backwards, a lookup sees the last frame stored for the id exactly until 300 seconds after it was
    stored. Lazy removal and sweeping are never observable.
   */
  lemma {:induction false} LookupMatchesLog(log: seq<Event>, id: Bytes, now: nat)
    requires Ordered(log) && NotBefore(log, now)
    ensures Found(Run(log), id, now) ==
            match LastStored(log, id)
            case None => None
            case Some(c) => if now < c.createdAt + 300_000_000_000 then Some(c.frame) else None
  {
    hide Run, LastStored, Fresh;
    RunMatchesLog(log, id, now);
    if LastStored(log, id).Some? {
      FreshExactly(LastStored(log, id).value, now);
    }
  }
}
