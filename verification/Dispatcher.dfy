/** Execution of commands: access checks, pipelines and the idempotency cache. */
module Dispatcher {
  import opened Text
  import opened Frames
  import opened Commands
  import opened Replies
  import opened Handlers
  import opened Idempotency

  datatype AuthContext = AuthContext(tenant: Bytes, actor: Bytes, isPlatform: bool, expiresAt: Option<nat>,
      grants: seq<(Bytes, set<Scope>)>)

  /** The access check; an error text refuses. */
  type Check = (AuthContext, Requirement) -> Option<Bytes>

  /** The store, the JSON codec, the access check and successive clock readings. */
  datatype Env<!S> = Env(
    backend: Backend<S>,
    codec: JsonCodec,
    check: Check,
    clock: nat -> nat)

  /**
    A reply to a pipeline with a request id: how many such replies had been given when its id was looked
    up, and when that was; the frame, and when the entry it is cached in was stored; store and cache
    before and after.
   */
  datatype Answer<+S> = Answer(
    id: Bytes, begun: nat, looked: nat, frame: Frame, stored: nat, before: S, after: S, cacheBefore: Cache,
        cacheAfter: Cache)

  /**
    The store and the cache, how many clock readings were taken, which commands reached the handlers and
    which replies were given under a request id so far.
   */
  datatype State<+S> = State(store: S, cache: Cache, ticks: nat, trace: seq<Command>, answers: seq<Answer<S>>)

  ghost predicate Monotone(clock: nat -> nat) {
    forall i, j :: i <= j ==> clock(i) <= clock(j)
  }

  /** The access check in front of every handler. */
  function Refusal(check: Check, c: Command, auth: Option<AuthContext>): Option<CommandError> {
    var need := RequirementOf(c);
    if need.NoRequirement? then None
    else
      match auth
      case None => Some(NotAuthenticated)
      case Some(ctx) =>
        match check(ctx, need)
        case None => None
        case Some(reason) => Some(Denied(reason))
  }

  function ExecuteLeaf<S>(env: Env<S>, c: Command, auth: Option<AuthContext>, st: State<S>)
      : (r: (State<S>, CommandResponse))
    requires !c.Pipeline?
    ensures r.0.cache == st.cache && r.0.ticks == st.ticks
  {
    match Refusal(env.check, c, auth)
    case Some(e) => (st, Failure(e))
    case None =>
      var (store, result) := Dispatch(env.backend, st.store, c);
      (st.(store := store, trace := st.trace + [c]), if result.Ok? then Success(result.value)
          else Failure(result.error))
  }

  /** `execute`. */
  function Execute<S>(env: Env<S>, c: Command, auth: Option<AuthContext>, st: State<S>)
      : (r: (State<S>, CommandResponse))
    ensures r.0.ticks >= st.ticks
    decreases c
  {
    if !c.Pipeline? then ExecuteLeaf(env, c, auth, st)
    else
      match c.requestId
      case None =>
        var (st1, results) := ExecuteAll(env, c.commands, auth, st);
        (st1, Many(results))
      case Some(id) =>
        var now := env.clock(st.ticks);
        var looked := Looked(env, id, st);
        match Found(st.cache, id, now)
        case Some(frame) => (Answered(env, id, st, looked, CachedFrame(frame), st.cache[id].createdAt),
            CachedFrame(frame))
        case None =>
          var (st1, results) := ExecuteAll(env, c.commands, auth, looked);
          var response := Many(results);
          var done := env.clock(st1.ticks);
          var cache := AfterInsert(st1.cache, id, ToFrame(response, env.codec), done);
          var st2 := st1.(cache := cache, ticks := st1.ticks + 1);
          (Answered(env, id, st, st2, response, done), response)
  }

  /** After looking up an id. */
  function Looked<S>(env: Env<S>, id: Bytes, st: State<S>): State<S> {
    st.(cache := AfterGet(st.cache, id, env.clock(st.ticks)), ticks := st.ticks + 1)
  }

  /** The reply to a pipeline that began in `st` is noted in `end`. */
  function Answered<S>(env: Env<S>, id: Bytes, st: State<S>, end: State<S>, response: CommandResponse, stored: nat)
      : State<S>
  {
    end.(answers := end.answers +
      [Answer(id, |st.answers|, env.clock(st.ticks), ToFrame(response, env.codec), stored, st.store, end.store,
          st.cache, end.cache)])
  }

  /** Commands one after the other, each in the state the previous one left. */
  function ExecuteAll<S>(env: Env<S>, cs: seq<Command>, auth: Option<AuthContext>, st: State<S>)
      : (r: (State<S>, seq<CommandResponse>))
    ensures r.0.ticks >= st.ticks
    ensures |r.1| == |cs|
    decreases cs
  {
    if cs == [] then (st, [])
    else
      var (st1, first) := Execute(env, cs[0], auth, st);
      var (st2, others) := ExecuteAll(env, cs[1..], auth, st1);
      (st2, [first] + others)
  }

  /** The dispatcher as it runs. */
  class CommandDispatcher<S> {
    const env: Env<S>
    const idempotency: IdempotencyMap
    var store: S
    var ticks: nat
    ghost var trace: seq<Command>
    ghost var answers: seq<Answer<S>>

    constructor (env: Env<S>, store: S)
      ensures this.env == env && fresh(idempotency)
      ensures Snapshot() == State(store, map[], 0, [], [])
    {
      this.env := env;
      this.store := store;
      idempotency := new IdempotencyMap();
      ticks := 0;
      trace := [];
      answers := [];
    }

    ghost function Snapshot(): State<S>
      reads this, idempotency
    {
      State(store, idempotency.entries, ticks, trace, answers)
    }

    method Now() returns (now: nat)
      modifies this
      ensures now == env.clock(old(ticks))
      ensures Snapshot() == old(Snapshot()).(ticks := old(ticks) + 1)
    {
      now := env.clock(ticks);
      ticks := ticks + 1;
    }

    /** `execute`: the loop over sub-commands and the two cache accesses give the specified outcome. */
    method Run(c: Command, auth: Option<AuthContext>) returns (response: CommandResponse)
      modifies this, idempotency
      ensures (Snapshot(), response) == Execute(env, c, auth, old(Snapshot()))
      decreases c
    {
      hide ExecuteLeaf, ToFrame, Fresh;
      if !c.Pipeline? {
        response := RunLeaf(c, auth);
      } else if c.requestId.None? {
        var results := RunAll(c.commands, auth);
        response := Many(results);
      } else {
        response := RunKeyed(c, auth);
      }
    }

    /** A pipeline with a request id: the cached reply if there is one, otherwise the commands and then the cache. */
    method RunKeyed(c: Command, auth: Option<AuthContext>) returns (response: CommandResponse)
      requires c.Pipeline? && c.requestId.Some?
      modifies this, idempotency
      ensures (Snapshot(), response) == Execute(env, c, auth, old(Snapshot()))
      decreases c, 0
    {
      hide ExecuteLeaf, ToFrame, Fresh, ExecuteAll;
      ghost var begin := Snapshot();
      var id := c.requestId.value;
      var asked := Now();
      var cached := idempotency.Get(id, asked);
      if cached.Some? {
        response := CachedFrame(cached.value);
        answers := Answered(env, id, begin, Snapshot(), response, begin.cache[id].createdAt).answers;
        return;
      }
      var results := RunAll(c.commands, auth);
      response := Many(results);
      var frame := ToFrame(response, env.codec);
      var done := Now();
      idempotency.Insert(id, frame, done);
      answers := Answered(env, id, begin, Snapshot(), response, done).answers;
    }

    method RunAll(cs: seq<Command>, auth: Option<AuthContext>) returns (results: seq<CommandResponse>)
      modifies this, idempotency
      ensures (Snapshot(), results) == ExecuteAll(env, cs, auth, old(Snapshot()))
      decreases cs
    {
      hide Execute;
      ghost var spec := ExecuteAll(env, cs, auth, Snapshot());
      results := [];
      assert results + spec.1 == spec.1;
      var i := 0;
      assert cs[0..] == cs;
      while i < |cs|
        invariant 0 <= i <= |cs|
        invariant spec == (var more := ExecuteAll(env, cs[i..], auth, Snapshot()); (more.0, results + more.1))
      {
        ghost var before := Snapshot();
        assert cs[i..][1..] == cs[i + 1..];
        var one := Run(cs[i], auth);
        ghost var more := ExecuteAll(env, cs[i + 1..], auth, Snapshot());
        assert results + ([one] + more.1) == (results + [one]) + more.1;
        results := results + [one];
        i := i + 1;
      }
      assert results + [] == results;
    }

    method RunLeaf(c: Command, auth: Option<AuthContext>) returns (response: CommandResponse)
      requires !c.Pipeline?
      modifies this
      ensures (Snapshot(), response) == ExecuteLeaf(env, c, auth, old(Snapshot()))
    {
      var refused := Refusal(env.check, c, auth);
      if refused.Some? {
        return Failure(refused.value);
      }
      var (store', result) := Dispatch(env.backend, store, c);
      store := store';
      trace := trace + [c];
      return if result.Ok? then Success(result.value) else Failure(result.error);
    }
  }
}
