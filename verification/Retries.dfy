/** The outcome of retried pipelines, at every nesting level. */
module Retries {
  import opened Text
  import opened Commands
  import opened Replies
  import opened Handlers
  import opened Idempotency
  import opened Dispatcher

  /** The entry for an id is there and is younger than 300 seconds when the given number of readings was taken. */
  predicate Holds<S>(env: Env<S>, st: State<S>, id: Bytes, entry: Cached, ticks: nat) {
    id in st.cache && st.cache[id] == entry && env.clock(ticks) < entry.createdAt + 300_000_000_000
  }

  lemma HeldIsFound<S>(env: Env<S>, st: State<S>, id: Bytes, entry: Cached, ticks: nat)
    requires Holds(env, st, id, entry, ticks)
    ensures Fresh(entry, env.clock(ticks)) && Found(st.cache, id, env.clock(ticks)) == Some(entry.frame)
  {
    hide Fresh;
    FreshExactly(entry, env.clock(ticks));
  }

  lemma HoldsEarlier<S>(env: Env<S>, st: State<S>, id: Bytes, entry: Cached, earlier: nat, later: nat)
    requires Monotone(env.clock) && earlier <= later
    requires Holds(env, st, id, entry, later)
    ensures Holds(env, st, id, entry, earlier)
  {
  }

  /** While an entry is younger than 300 seconds no command, however nested, replaces or removes it. */
  lemma {:induction false} EntryIsKept<S>(env: Env<S>, c: Command, auth: Option<AuthContext>, st: State<S>, id: Bytes,
                                          entry: Cached)
    requires Monotone(env.clock)
    requires Holds(env, st, id, entry, Execute(env, c, auth, st).0.ticks)
    ensures Holds(env, Execute(env, c, auth, st).0, id, entry, Execute(env, c, auth, st).0.ticks)
    decreases c
  {
    hide Dispatch, ToFrame, Fresh, Refusal;
    var end := Execute(env, c, auth, st).0.ticks;
    if c.Pipeline? {
      if c.requestId.None? {
        EntryIsKeptByAll(env, c.commands, auth, st, id, entry, end);
      } else {
        HoldsEarlier(env, st, id, entry, st.ticks, end);
        HeldIsFound(env, st, id, entry, st.ticks);
        var now := env.clock(st.ticks);
        var looked := Looked(env, c.requestId.value, st);
        if Found(st.cache, c.requestId.value, now).None? {
          EntryIsKeptByAll(env, c.commands, auth, looked, id, entry, end);
        }
      }
    }
  }

  lemma {:induction false} EntryIsKeptByAll<S>(env: Env<S>, cs: seq<Command>, auth: Option<AuthContext>, st: State<S>,
                                               id: Bytes, entry: Cached, end: nat)
    requires Monotone(env.clock) && ExecuteAll(env, cs, auth, st).0.ticks <= end
    requires Holds(env, st, id, entry, end)
    ensures Holds(env, ExecuteAll(env, cs, auth, st).0, id, entry, end)
    decreases cs
  {
    hide Execute, Fresh, Monotone;
    if cs != [] {
      var st1 := Execute(env, cs[0], auth, st).0;
      HoldsEarlier(env, st, id, entry, st1.ticks, end);
      EntryIsKept(env, cs[0], auth, st, id, entry);
      EntryIsKeptByAll(env, cs[1..], auth, st1, id, entry, end);
    }
  }

  /** Commands that differ only inside pipelines carrying the id. */
  predicate SameOutside(id: Bytes, a: Command, b: Command) {
    if a.Pipeline? && b.Pipeline? then
      && a.requestId == b.requestId
      && (a.requestId == Some(id) || SameOutsideAll(id, a.commands, b.commands))
    else a == b
  }

  predicate SameOutsideAll(id: Bytes, as_: seq<Command>, bs: seq<Command>) {
    |as_| == |bs| && forall i :: 0 <= i < |as_| ==> SameOutside(id, as_[i], bs[i])
  }

  /**
    While the entry for an id is younger than 300 seconds, the body of every pipeline with that id is
    irrelevant at every nesting level: replacing it changes neither the state nor the reply.
   */
  lemma {:induction false} RetriedBodyIsIrrelevant<S>(env: Env<S>, a: Command, b: Command, auth: Option<AuthContext>,
                                                      st: State<S>, id: Bytes, entry: Cached)
    requires Monotone(env.clock) && SameOutside(id, a, b)
    requires Holds(env, st, id, entry, Execute(env, a, auth, st).0.ticks)
    ensures Execute(env, a, auth, st) == Execute(env, b, auth, st)
    decreases a
  {
    hide Dispatch, ToFrame, Fresh, Refusal;
    var end := Execute(env, a, auth, st).0.ticks;
    if a.Pipeline? && b.Pipeline? {
      if a.requestId.None? {
        RetriedBodiesAreIrrelevant(env, a.commands, b.commands, auth, st, id, entry, end);
      } else {
        HoldsEarlier(env, st, id, entry, st.ticks, end);
        HeldIsFound(env, st, id, entry, st.ticks);
        var now := env.clock(st.ticks);
        var looked := Looked(env, a.requestId.value, st);
        if Found(st.cache, a.requestId.value, now).None? {
          RetriedBodiesAreIrrelevant(env, a.commands, b.commands, auth, looked, id, entry, end);
        }
      }
    }
  }

  lemma {:induction false} RetriedBodiesAreIrrelevant<S>(env: Env<S>, as_: seq<Command>, bs: seq<Command>,
      auth: Option<AuthContext>, st: State<S>, id: Bytes, entry: Cached, end: nat)
    requires Monotone(env.clock) && SameOutsideAll(id, as_, bs)
    requires ExecuteAll(env, as_, auth, st).0.ticks <= end
    requires Holds(env, st, id, entry, end)
    ensures ExecuteAll(env, as_, auth, st) == ExecuteAll(env, bs, auth, st)
    decreases as_
  {
    hide Execute, Fresh, Monotone;
    if as_ != [] {
      var st1 := Execute(env, as_[0], auth, st).0;
      HoldsEarlier(env, st, id, entry, st1.ticks, end);
      RetriedBodyIsIrrelevant(env, as_[0], bs[0], auth, st, id, entry);
      EntryIsKept(env, as_[0], auth, st, id, entry);
      RetriedBodiesAreIrrelevant(env, as_[1..], bs[1..], auth, st1, id, entry, end);
    }
  }

  /**
    Anything the server does between two requests: other commands, by anyone, and the reaper, which looks
    at each entry in its turn.
   */
  datatype Activity = Perform(c: Command, auth: Option<AuthContext>) | Reap(turn: Bytes -> nat, turns: nat)

  function Act<S>(env: Env<S>, a: Activity, st: State<S>): (r: State<S>)
    ensures r.ticks >= st.ticks
  {
    match a
    case Perform(c, auth) => Execute(env, c, auth, st).0
    case Reap(turn, turns) =>
        st.(cache := AfterPrune(st.cache, ReapedAt(env, st, turn, turns)), ticks := st.ticks + turns)
  }

  /** When the reaper looks at an entry. */
  function ReapedAt<S>(env: Env<S>, st: State<S>, turn: Bytes -> nat, turns: nat): Bytes -> nat {
    id => env.clock(st.ticks + if turn(id) < turns then turn(id) else turns)
  }

  function ActAll<S>(env: Env<S>, acts: seq<Activity>, st: State<S>): (r: State<S>)
    ensures r.ticks >= st.ticks
  {
    if acts == [] then st else ActAll(env, acts[1..], Act(env, acts[0], st))
  }

  lemma {:induction false} EntryOutlivesActivity<S>(env: Env<S>, acts: seq<Activity>, st: State<S>, id: Bytes,
                                                    entry: Cached)
    requires Monotone(env.clock)
    requires Holds(env, st, id, entry, ActAll(env, acts, st).ticks)
    ensures Holds(env, ActAll(env, acts, st), id, entry, ActAll(env, acts, st).ticks)
    decreases |acts|
  {
    hide Execute, Fresh, Monotone;
    if acts != [] {
      var end := ActAll(env, acts, st).ticks;
      var st1 := Act(env, acts[0], st);
      HoldsEarlier(env, st, id, entry, st1.ticks, end);
      HoldsEarlier(env, st, id, entry, st.ticks, end);
      HeldIsFound(env, st, id, entry, st1.ticks);
      if acts[0].Perform? {
        EntryIsKept(env, acts[0].c, acts[0].auth, st, id, entry);
      } else {
        ReapPrunes(env, st, acts[0].turn, acts[0].turns);
      }
      assert Holds(env, st1, id, entry, st1.ticks);
      EntryOutlivesActivity(env, acts[1..], st1, id, entry);
    }
  }

  /** A completed pipeline with a request id leaves its own reply frame in the cache. */
  lemma CompletedPipelineIsCached<S>(env: Env<S>, cs: seq<Command>, id: Bytes, auth: Option<AuthContext>, st: State<S>)
    ensures var (st1, r) := Execute(env, Pipeline(cs, Some(id)), auth, st);
            && id in st1.cache
            && st1.cache[id].frame == ToFrame(r, env.codec)
            && (r.Many? ==> st1.ticks > 0 && st1.cache[id].createdAt == env.clock(st1.ticks - 1))
  {
    hide Execute, ExecuteAll, Fresh, ToFrame;
    ExecutePipeline(env, cs, id, auth, st);
    CachedFrameIsItself(st, id, env.codec);
  }

  lemma ExecutePipeline<S>(env: Env<S>, cs: seq<Command>, id: Bytes, auth: Option<AuthContext>, st: State<S>)
    ensures var now := env.clock(st.ticks);
            var looked := Looked(env, id, st);
            var (st1, results) := ExecuteAll(env, cs, auth, looked);
            var done := env.clock(st1.ticks);
            var cache := AfterInsert(st1.cache, id, ToFrame(Many(results), env.codec), done);
            var end := st1.(cache := cache, ticks := st1.ticks + 1);
            Execute(env, Pipeline(cs, Some(id)), auth, st) ==
              if Found(st.cache, id, now).Some? then
                var hit := CachedFrame(Found(st.cache, id, now).value);
                (Answered(env, id, st, looked, hit, st.cache[id].createdAt), hit)
              else (Answered(env, id, st, end, Many(results), done), Many(results))
  {
    hide ToFrame, Fresh;
  }

  lemma CachedFrameIsItself<S>(st: State<S>, id: Bytes, codec: JsonCodec)
    ensures id in st.cache ==> ToFrame(CachedFrame(st.cache[id].frame), codec) == st.cache[id].frame
  {
  }

  /**
    Idempotent retry: once a pipeline with an id completed, after any activity whatsoever, another
    pipeline with that id, by anyone and with any body, changes neither the store nor the cache and is
    answered with the frame of the first reply, until 300 seconds after that was stored.
   */
  lemma RetryRepeatsFirstReply<S>(env: Env<S>, cs: seq<Command>, id: Bytes, auth: Option<AuthContext>, st: State<S>,
                                  acts: seq<Activity>, cs': seq<Command>, auth': Option<AuthContext>)
    requires Monotone(env.clock)
    requires var st1 := Execute(env, Pipeline(cs, Some(id)), auth, st).0;
             && id in st1.cache
             && env.clock(ActAll(env, acts, st1).ticks) < st1.cache[id].createdAt + 300_000_000_000
    ensures var (st1, first) := Execute(env, Pipeline(cs, Some(id)), auth, st);
            var st2 := ActAll(env, acts, st1);
            var (st3, again) := Execute(env, Pipeline(cs', Some(id)), auth', st2);
            && st3.store == st2.store && st3.cache == st2.cache && st3.trace == st2.trace
            && ToFrame(again, env.codec) == ToFrame(first, env.codec)
  {
    hide Execute, ExecuteAll, Fresh, ToFrame, Monotone, ActAll;
    var (st1, first) := Execute(env, Pipeline(cs, Some(id)), auth, st);
    CompletedPipelineIsCached(env, cs, id, auth, st);
    var st2 := ActAll(env, acts, st1);
    EntryOutlivesActivity(env, acts, st1, id, st1.cache[id]);
    HeldIsFound(env, st2, id, st1.cache[id], st2.ticks);
    ExecutePipeline(env, cs', id, auth', st2);
    CachedFrameIsItself(st2, id, env.codec);
  }

  // ---- Every reply under an id, at every level ----

  function EntryOf<S>(a: Answer<S>): Cached {
    Cached(a.frame, a.stored)
  }

  /** A pipeline with the same id was under way around the i-th reply and finished before position `end`. */
  predicate Enclosed<S>(answers: seq<Answer<S>>, i: int, end: int)
    requires 0 <= i && end <= |answers|
  {
    exists k :: i < k < end && answers[k].id == answers[i].id && answers[k].begun <= i
  }

  /**
    The j-th reply repeats every fresh earlier one under its id that was final when it was looked up: it
    is the same frame, and it left store and cache as they were.
   */
  ghost predicate Repeats<S>(answers: seq<Answer<S>>, j: int)
    requires 0 <= j < |answers|
  {
    var a := answers[j];
    && a.begun <= j
    && forall i :: 0 <= i < a.begun && answers[i].id == a.id && !Enclosed(answers, i, a.begun)
                   && Fresh(EntryOf(answers[i]), a.looked)
         ==> a.frame == answers[i].frame && a.after == a.before && a.cacheAfter == a.cacheBefore
  }

  /** The cache holds the i-th reply. */
  predicate Held<S>(st: State<S>, i: int)
    requires 0 <= i < |st.answers|
  {
    var a := st.answers[i];
    a.id in st.cache && st.cache[a.id] == EntryOf(a)
  }

  /** Every final reply is in the cache while it is fresh. */
  predicate Kept<S>(env: Env<S>, st: State<S>) {
    forall i :: 0 <= i < |st.answers| && !Enclosed(st.answers, i, |st.answers|)
                && Fresh(EntryOf(st.answers[i]), env.clock(st.ticks))
      ==> Held(st, i)
  }

  ghost predicate Consistent<S>(env: Env<S>, st: State<S>) {
    Kept(env, st) && forall j :: 0 <= j < |st.answers| ==> Repeats(st.answers, j)
  }

  lemma EnclosedGrows<S>(answers: seq<Answer<S>>, a: Answer<S>, i: nat)
    requires i < |answers|
    ensures Enclosed(answers + [a], i, |answers| + 1) <==>
            Enclosed(answers, i, |answers|) || (a.id == answers[i].id && a.begun <= i)
  {
    var more := answers + [a];
    if Enclosed(answers, i, |answers|) {
      var k :| i < k < |answers| && answers[k].id == answers[i].id && answers[k].begun <= i;
      assert more[k] == answers[k];
    }
    if a.id == answers[i].id && a.begun <= i {
      assert more[|answers|] == a;
    }
  }

  lemma EnclosedStays<S>(answers: seq<Answer<S>>, a: Answer<S>, i: nat, end: nat)
    requires i < |answers| && end <= |answers|
    ensures Enclosed(answers + [a], i, end) <==> Enclosed(answers, i, end)
  {
    var more := answers + [a];
    if Enclosed(answers, i, end) {
      var k :| i < k < end && answers[k].id == answers[i].id && answers[k].begun <= i;
      assert more[k] == answers[k];
    }
  }

  lemma EnclosedLater<S>(answers: seq<Answer<S>>, i: nat, earlier: nat, end: nat)
    requires i < |answers| && earlier <= end <= |answers|
    ensures Enclosed(answers, i, earlier) ==> Enclosed(answers, i, end)
  {
  }

  lemma RepeatsStays<S>(answers: seq<Answer<S>>, a: Answer<S>)
    requires forall j :: 0 <= j < |answers| ==> Repeats(answers, j)
    ensures forall j :: 0 <= j < |answers| ==> Repeats(answers + [a], j)
  {
    hide Fresh, Enclosed;
    forall j | 0 <= j < |answers|
      ensures Repeats(answers + [a], j)
    {
      assert Repeats(answers, j);
      forall i | 0 <= i < answers[j].begun
        ensures Enclosed(answers + [a], i, answers[j].begun) <==> Enclosed(answers, i, answers[j].begun)
      {
        EnclosedStays(answers, a, i, answers[j].begun);
      }
    }
  }

  /** Entries were looked at, each by the end, and stale ones removed. */
  ghost predicate PrunedBy<S>(env: Env<S>, st: State<S>, st': State<S>) {
    forall id :: id in st.cache && Fresh(st.cache[id], env.clock(st'.ticks)) ==>
      id in st'.cache && st'.cache[id] == st.cache[id]
  }

  lemma ReapPrunes<S>(env: Env<S>, st: State<S>, turn: Bytes -> nat, turns: nat)
    requires Monotone(env.clock)
    ensures PrunedBy(env, st, Act(env, Reap(turn, turns), st))
  {
    hide Fresh;
    var st' := Act(env, Reap(turn, turns), st);
    forall id | id in st.cache && Fresh(st.cache[id], env.clock(st'.ticks))
      ensures id in st'.cache
    {
      FreshnessDecays(st.cache[id], ReapedAt(env, st, turn, turns)(id), env.clock(st'.ticks));
    }
  }

  /** A lookup, pruning and the passing of time keep the invariant. */
  lemma LookupKeeps<S>(env: Env<S>, st: State<S>, st': State<S>, id: Bytes)
    requires Monotone(env.clock) && Consistent(env, st)
    requires st'.answers == st.answers && st'.ticks >= st.ticks
    requires st'.cache == st.cache || st'.cache == AfterGet(st.cache, id, env.clock(st.ticks))
             || PrunedBy(env, st, st')
    ensures Consistent(env, st')
  {
    hide Fresh, Enclosed, Repeats;
    forall i | 0 <= i < |st.answers| && !Enclosed(st.answers, i, |st.answers|)
        && Fresh(EntryOf(st.answers[i]), env.clock(st'.ticks))
      ensures Held(st', i)
    {
      FreshnessDecays(EntryOf(st.answers[i]), env.clock(st.ticks), env.clock(st'.ticks));
      assert Held(st, i);
    }
  }

  /** A cached reply, when noted, repeats what it should and is itself in the cache. */
  lemma HitKeeps<S>(env: Env<S>, st: State<S>, id: Bytes)
    requires Monotone(env.clock) && Consistent(env, st) && Found(st.cache, id, env.clock(st.ticks)).Some?
    ensures Consistent(env,
            Answered(env, id, st, Looked(env, id, st), CachedFrame(st.cache[id].frame), st.cache[id].createdAt))
  {
    hide Fresh, Enclosed, Repeats;
    var end := Answered(env, id, st, Looked(env, id, st), CachedFrame(st.cache[id].frame), st.cache[id].createdAt);
    var n, a := |st.answers|, end.answers[|st.answers|];
    CachedFrameIsItself(st, id, env.codec);
    assert EntryOf(a) == st.cache[id] && end.cache == st.cache;
    LookupKeeps(env, st, Looked(env, id, st), id);
    RepeatsStays(st.answers, a);
    HitRepeats(env, st, end.answers, a, id);
    forall i | 0 <= i <= n && !Enclosed(end.answers, i, n + 1) && Fresh(EntryOf(end.answers[i]), env.clock(end.ticks))
      ensures Held(end, i)
    {
      if i < n {
        EnclosedGrows(st.answers, a, i);
        assert Held(Looked(env, id, st), i);
      }
    }
  }

  lemma HitRepeats<S>(env: Env<S>, st: State<S>, answers: seq<Answer<S>>, a: Answer<S>, id: Bytes)
    requires Kept(env, st) && answers == st.answers + [a]
    requires a.id == id && a.begun == |st.answers| && a.looked == env.clock(st.ticks)
    requires id in st.cache && a.frame == st.cache[id].frame && a.after == a.before && a.cacheAfter == a.cacheBefore
    ensures Repeats(answers, |st.answers|)
  {
    hide Fresh, Enclosed;
    var n := |st.answers|;
    forall i | 0 <= i < n && answers[i].id == id && !Enclosed(answers, i, n) && Fresh(EntryOf(answers[i]), a.looked)
      ensures a.frame == answers[i].frame
    {
      EnclosedStays(st.answers, a, i, n);
      assert Held(st, i);
    }
  }

  /** A pipeline that ran, when noted and stored, found nothing to repeat and encloses what ran inside it. */
  lemma MissKeeps<S>(env: Env<S>, st: State<S>, st1: State<S>, end: State<S>, id: Bytes, response: CommandResponse,
                     done: nat)
    requires Monotone(env.clock) && Kept(env, st) && Found(st.cache, id, env.clock(st.ticks)).None?
    requires Consistent(env, st1) && st.answers <= st1.answers && st1.ticks >= st.ticks
    requires done == env.clock(st1.ticks)
    requires var cache := AfterInsert(st1.cache, id, ToFrame(response, env.codec), done);
             end == st1.(cache := cache, ticks := st1.ticks + 1)
    ensures Consistent(env, Answered(env, id, st, end, response, done))
  {
    hide Fresh, Enclosed, Repeats, ToFrame;
    var last := Answered(env, id, st, end, response, done);
    var n, a := |st1.answers|, last.answers[|st1.answers|];
    RepeatsStays(st1.answers, a);
    MissRepeats(env, st, st1.answers, a, id);
    forall i | 0 <= i <= n && !Enclosed(last.answers, i, n + 1)
        && Fresh(EntryOf(last.answers[i]), env.clock(last.ticks))
      ensures Held(last, i)
    {
      if i < n {
        EnclosedGrows(st1.answers, a, i);
        FreshnessDecays(EntryOf(st1.answers[i]), env.clock(st1.ticks), env.clock(last.ticks));
        assert Held(st1, i);
        if st1.answers[i].id == id {
          FreshnessDecays(EntryOf(st1.answers[i]), env.clock(st.ticks), env.clock(last.ticks));
          EnclosedLater(st1.answers, i, |st.answers|, n);
          NothingFresh(env, st, st1.answers, id, i);
        }
      }
    }
  }

  /** At a miss no final reply under the id is fresh. */
  lemma NothingFresh<S>(env: Env<S>, st: State<S>, answers: seq<Answer<S>>, id: Bytes, i: nat)
    requires Kept(env, st) && Found(st.cache, id, env.clock(st.ticks)).None?
    requires st.answers <= answers && i < |st.answers| && answers[i].id == id
    requires !Enclosed(answers, i, |st.answers|)
    ensures !Fresh(EntryOf(answers[i]), env.clock(st.ticks))
  {
    hide Fresh;
    assert st.answers[i] == answers[i];
  }

  lemma MissRepeats<S>(env: Env<S>, st: State<S>, answers: seq<Answer<S>>, a: Answer<S>, id: Bytes)
    requires Kept(env, st) && Found(st.cache, id, env.clock(st.ticks)).None?
    requires st.answers <= answers
    requires a.id == id && a.begun == |st.answers| && a.looked == env.clock(st.ticks)
    ensures Repeats(answers + [a], |answers|)
  {
    hide Fresh, Enclosed;
    var all := answers + [a];
    forall i | 0 <= i < a.begun && all[i].id == id && !Enclosed(all, i, a.begun)
      ensures !Fresh(EntryOf(all[i]), a.looked)
    {
      EnclosedStays(answers, a, i, a.begun);
      NothingFresh(env, st, answers, id, i);
    }
  }

  /** Every reply to a pipeline with an id is noted, with the frame that goes out and the store around it. */
  lemma ReplyIsNoted<S>(env: Env<S>, cs: seq<Command>, id: Bytes, auth: Option<AuthContext>, st: State<S>)
    ensures var (end, r) := Execute(env, Pipeline(cs, Some(id)), auth, st);
            && end.answers != []
            && var a := end.answers[|end.answers| - 1];
               && a.id == id && a.begun == |st.answers| && a.looked == env.clock(st.ticks)
               && a.frame == ToFrame(r, env.codec)
               && a.before == st.store && a.after == end.store && a.cacheBefore == st.cache && a.cacheAfter == end.cache
  {
    hide Execute, ExecuteAll, Fresh, ToFrame;
    ExecutePipeline(env, cs, id, auth, st);
  }

  lemma {:induction false} ExecuteIsConsistent<S>(env: Env<S>, c: Command, auth: Option<AuthContext>, st: State<S>)
    requires Monotone(env.clock) && Consistent(env, st)
    ensures Consistent(env, Execute(env, c, auth, st).0) && st.answers <= Execute(env, c, auth, st).0.answers
    decreases c
  {
    hide Dispatch, ToFrame, Fresh, Refusal, Consistent, Kept, ExecuteAll, Monotone;
    if !c.Pipeline? {
      LookupKeeps(env, st, Execute(env, c, auth, st).0, []);
    } else if c.requestId.None? {
      AllAreConsistent(env, c.commands, auth, st);
    } else {
      var id := c.requestId.value;
      var looked := Looked(env, id, st);
      LookupKeeps(env, st, looked, id);
      ExecutePipeline(env, c.commands, id, auth, st);
      if Found(st.cache, id, env.clock(st.ticks)).Some? {
        HitKeeps(env, st, id);
      } else {
        AllAreConsistent(env, c.commands, auth, looked);
        var (st1, results) := ExecuteAll(env, c.commands, auth, looked);
        var done := env.clock(st1.ticks);
        var cache := AfterInsert(st1.cache, id, ToFrame(Many(results), env.codec), done);
        var end := st1.(cache := cache, ticks := st1.ticks + 1);
        ConsistentIsKept(env, st);
        MissKeeps(env, st, st1, end, id, Many(results), done);
      }
    }
  }

  lemma ConsistentIsKept<S>(env: Env<S>, st: State<S>)
    requires Consistent(env, st)
    ensures Kept(env, st)
  {
  }

  lemma {:induction false} AllAreConsistent<S>(env: Env<S>, cs: seq<Command>, auth: Option<AuthContext>, st: State<S>)
    requires Monotone(env.clock) && Consistent(env, st)
    ensures Consistent(env, ExecuteAll(env, cs, auth, st).0) && st.answers <= ExecuteAll(env, cs, auth, st).0.answers
    decreases cs
  {
    hide Execute, Consistent, Monotone;
    if cs != [] {
      ExecuteIsConsistent(env, cs[0], auth, st);
      AllAreConsistent(env, cs[1..], auth, Execute(env, cs[0], auth, st).0);
    }
  }

  lemma {:induction false} ActivityIsConsistent<S>(env: Env<S>, acts: seq<Activity>, st: State<S>)
    requires Monotone(env.clock) && Consistent(env, st)
    ensures Consistent(env, ActAll(env, acts, st))
    decreases |acts|
  {
    hide Execute, Consistent, Monotone;
    if acts != [] {
      if acts[0].Perform? {
        ExecuteIsConsistent(env, acts[0].c, acts[0].auth, st);
      } else {
        ReapPrunes(env, st, acts[0].turn, acts[0].turns);
        LookupKeeps(env, st, Act(env, acts[0], st), []);
      }
      ActivityIsConsistent(env, acts[1..], Act(env, acts[0], st));
    }
  }

  /**
    Idempotent retry at every level. Take any activity, and in it two replies under one id, each to a
    pipeline at any depth, the second looked up after the first was given. If the first was final by
    then, that is, not given inside a pipeline with the same id that finished in between, and less than
    300 seconds have passed since it was stored, then the second is the same frame and changed neither store
    nor cache.
   */
  lemma EveryRetryRepeats<S>(env: Env<S>, acts: seq<Activity>, st: State<S>, i: nat, j: nat)
    requires Monotone(env.clock) && st.answers == []
    requires var answers := ActAll(env, acts, st).answers;
             && i < j < |answers| && answers[i].id == answers[j].id
             && i < answers[j].begun <= |answers| && !Enclosed(answers, i, answers[j].begun)
             && answers[j].looked < answers[i].stored + 300_000_000_000
    ensures var answers := ActAll(env, acts, st).answers;
            && answers[j].frame == answers[i].frame
            && answers[j].after == answers[j].before && answers[j].cacheAfter == answers[j].cacheBefore
  {
    hide ActAll, Fresh, Enclosed, Monotone;
    ActivityIsConsistent(env, acts, st);
    var answers := ActAll(env, acts, st).answers;
    FreshExactly(EntryOf(answers[i]), answers[j].looked);
    assert Repeats(answers, j);
  }
}
