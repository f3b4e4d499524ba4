/** What every execution keeps: order and authorisation. */
module ExecutionFacts {
  import opened Text
  import opened Commands
  import opened Replies
  import opened Handlers
  import opened Idempotency
  import opened Dispatcher

  // ---- Order ----

  /** The state left by the first `i` commands. */
  function StateBefore<S>(env: Env<S>, cs: seq<Command>, auth: Option<AuthContext>, st: State<S>, i: nat): State<S>
    requires i <= |cs|
  {
    ExecuteAll(env, cs[..i], auth, st).0
  }

  lemma {:induction false} RepliesInOrder<S>(env: Env<S>, cs: seq<Command>, auth: Option<AuthContext>, st: State<S>,
                                             i: nat)
    requires i < |cs|
    ensures var before := StateBefore(env, cs, auth, st, i);
            && ExecuteAll(env, cs, auth, st).1[i] == Execute(env, cs[i], auth, before).1
            && StateBefore(env, cs, auth, st, i + 1) == Execute(env, cs[i], auth, before).0
    decreases i
  {
    hide Execute;
    var st1 := Execute(env, cs[0], auth, st).0;
    assert cs[..i + 1][0] == cs[0];
    if i == 0 {
      assert cs[..0] == [] && cs[..1][1..] == [];
      assert ExecuteAll(env, cs[..1], auth, st).0 == ExecuteAll(env, [], auth, st1).0;
    } else {
      RepliesInOrder(env, cs[1..], auth, st1, i - 1);
      assert cs[..i + 1][1..] == cs[1..][..i];
      assert cs[..i][1..] == cs[1..][..i - 1];
      assert cs[..i][0] == cs[0];
      assert ExecuteAll(env, cs[..i + 1], auth, st).0 == ExecuteAll(env, cs[1..][..i], auth, st1).0;
      assert ExecuteAll(env, cs[..i], auth, st).0 == ExecuteAll(env, cs[1..][..i - 1], auth, st1).0;
    }
  }

  /** Where a pipeline's sub-commands begin: after the lookup of its id, if it has one. */
  function Begin<S>(env: Env<S>, id: Option<Bytes>, st: State<S>): State<S> {
    if id.Some? then Looked(env, id.value, st) else st
  }

  /** A reply under the id was stored less than 300 seconds ago. */
  predicate HasFreshReply<S>(env: Env<S>, id: Option<Bytes>, st: State<S>) {
    id.Some? && id.value in st.cache && env.clock(st.ticks) < st.cache[id.value].createdAt + 300_000_000_000
  }

  /**
    Pipeline meaning: without a fresh cached reply a pipeline answers each sub-command, the i-th with the
    reply of running it in the state the first i left, and leaves the store all of them leave.
   */
  lemma PipelineRepliesInOrder<S>(env: Env<S>, cs: seq<Command>, id: Option<Bytes>, auth: Option<AuthContext>,
                                  st: State<S>, i: nat)
    requires !HasFreshReply(env, id, st) && i < |cs|
    ensures var (end, r) := Execute(env, Pipeline(cs, id), auth, st);
            var begin := Begin(env, id, st);
            var before := StateBefore(env, cs, auth, begin, i);
            && r.Many? && |r.responses| == |cs|
            && r.responses[i] == Execute(env, cs[i], auth, before).1
            && StateBefore(env, cs, auth, begin, i + 1) == Execute(env, cs[i], auth, before).0
            && end.store == StateBefore(env, cs, auth, begin, |cs|).store
  {
    hide ToFrame, Fresh;
    if id.Some? {
      FoundExactly(st.cache, id.value, env.clock(st.ticks));
    }
    RepliesInOrder(env, cs, auth, Begin(env, id, st), i);
    assert cs[..|cs|] == cs;
  }

  // ---- Trees ----

  /** The commands of a tree that are not pipelines, in order. */
  function Leaves(c: Command): seq<Command> {
    if c.Pipeline? then AllLeaves(c.commands) else [c]
  }

  function AllLeaves(cs: seq<Command>): seq<Command> {
    if cs == [] then [] else Leaves(cs[0]) + AllLeaves(cs[1..])
  }

  // ---- Routes ----

  predicate IsWrite(c: Command) {
    c.Put? || c.Delete? || c.PutIf? || c.DelIf? || c.DelPrefix?
  }

  predicate IsAdministrative(c: Command) {
    c.NamespaceCreate? || c.NamespaceDrop? || c.NamespaceAlter? || c.ConfigSet? || c.Rekey?
  }

  /** The write a command asks for. */
  function WriteOf(c: Command): WriteOp
    requires IsWrite(c)
  {
    match c
    case Put(ns, key, value, metadata, ttl) => WPut(ns, key, value, metadata, ttl)
    case Delete(ns, key) => WDelete(ns, key)
    case PutIf(ns, key, value, metadata, expected) => WPutIf(ns, key, value, metadata, expected)
    case DelIf(ns, key, expected) => WDelIf(ns, key, expected)
    case DelPrefix(ns, prefix) => WDelPrefix(ns, prefix)
  }

  /** The administrative change a command asks for. */
  function AdminOf(c: Command): AdminOp
    requires IsAdministrative(c)
  {
    match c
    case NamespaceCreate(name, schema, maxVersions, retention) => ACreate(name, schema, maxVersions, retention)
    case NamespaceDrop(name, force) => ADrop(name, force)
    case NamespaceAlter(name, schema, maxVersions, retention) => AAlter(name, schema, maxVersions, retention)
    case ConfigSet(name, setting) => ASetConfig(name, setting)
    case Rekey(newKeyHex) => ARekey(newKeyHex)
  }

  lemma WriteIsRouted<S>(b: Backend<S>, s: S, c: Command)
    requires IsWrite(c)
    ensures CommandFor(WriteOf(c)) == c && Dispatch(b, s, c) == HandleWrite(b, s, WriteOf(c))
  {
    hide HandleWrite;
  }

  lemma AdminIsRouted<S>(b: Backend<S>, s: S, c: Command)
    requires IsAdministrative(c)
    ensures AdminCommandFor(AdminOf(c)) == c && Dispatch(b, s, c) == b.admin(s, AdminOf(c))
  {
  }

  // ---- Authorisation ----

  /** There is a context and it meets the requirement. */
  predicate May(check: Check, auth: Option<AuthContext>, need: Requirement) {
    auth.Some? && check(auth.value, need).None?
  }

  /** Reading a namespace, writing to it and administration are each for contexts that may do so. */
  predicate Allowed(check: Check, c: Command, auth: Option<AuthContext>) {
    && (c.Get? || c.List? || c.Versions? || c.Subscribe? ==> May(check, auth, Namespace(c.ns, Read)))
    && (c.NamespaceInfo? || c.NamespaceValidate? ==> May(check, auth, Namespace(c.name, Read)))
    && (IsWrite(c) ==> May(check, auth, Namespace(c.ns, Write)))
    && (IsAdministrative(c) ==> May(check, auth, Admin))
  }

  /** What the check says against a command that is not allowed. */
  function Objection(check: Check, c: Command, ctx: AuthContext): Bytes
    requires !Allowed(check, c, Some(ctx))
  {
    if IsAdministrative(c) then check(ctx, Admin).value
    else if c.NamespaceInfo? || c.NamespaceValidate? then check(ctx, Namespace(c.name, Read)).value
    else if c.Get? || c.List? || c.Versions? || c.Subscribe? then check(ctx, Namespace(c.ns, Read)).value
    else check(ctx, Namespace(c.ns, Write)).value
  }

  /** The text a command that is not allowed is answered with. */
  function RefusalText(check: Check, c: Command, auth: Option<AuthContext>): Bytes
    requires !Allowed(check, c, auth)
  {
    if auth.None? then "not authenticated" else "permission denied: " + Objection(check, c, auth.value)
  }

  lemma RefusedExactly(check: Check, c: Command, auth: Option<AuthContext>)
    ensures Refusal(check, c, auth).None? <==> Allowed(check, c, auth)
    ensures !Allowed(check, c, auth) ==> ErrorText(Refusal(check, c, auth).value) == RefusalText(check, c, auth)
  {
    hide ErrorText;
    if !Allowed(check, c, auth) && auth.Some? {
      DenialText(Objection(check, c, auth.value));
    }
    DenialText([]);
  }

  lemma DenialText(reason: Bytes)
    ensures ErrorText(NotAuthenticated) == "not authenticated"
    ensures ErrorText(Denied(reason)) == "permission denied: " + reason
  {
    assert "not authenticated" + [] == "not authenticated";
  }

  /**
    A command reaches its handler exactly when it is allowed; otherwise nothing happens, and the
    client is told why.
   */
  lemma LeafIsGuarded<S>(env: Env<S>, c: Command, auth: Option<AuthContext>, st: State<S>)
    requires !c.Pipeline?
    ensures var (end, r) := Execute(env, c, auth, st);
            if Allowed(env.check, c, auth) then
              var (store, result) := Dispatch(env.backend, st.store, c);
              && end == st.(store := store, trace := st.trace + [c])
              && r == if result.Ok? then Success(result.value) else Failure(result.error)
            else
              && end == st
              && r.Failure? && ErrorText(r.error) == RefusalText(env.check, c, auth)
  {
    hide Dispatch, Refusal, ErrorText, Allowed, RefusalText;
    RefusedExactly(env.check, c, auth);
  }

  /** The commands that reached the handlers between two states. */
  predicate AddsOnlyAllowed<S>(env: Env<S>, auth: Option<AuthContext>, before: State<S>, after: State<S>) {
    && before.trace <= after.trace
    && forall i :: |before.trace| <= i < |after.trace| ==>
         !after.trace[i].Pipeline? && Allowed(env.check, after.trace[i], auth)
  }

  /** Through any nesting of pipelines, only permitted commands reach a handler. */
  lemma {:induction false} OnlyAllowedReachHandlers<S>(env: Env<S>, c: Command, auth: Option<AuthContext>, st: State<S>)
    ensures AddsOnlyAllowed(env, auth, st, Execute(env, c, auth, st).0)
    decreases c
  {
    hide Dispatch, ToFrame, Refusal, Allowed;
    if !c.Pipeline? {
      RefusedExactly(env.check, c, auth);
    } else {
      if c.requestId.None? {
        OnlyAllowedInAll(env, c.commands, auth, st);
      } else {
        var looked := Looked(env, c.requestId.value, st);
        OnlyAllowedInAll(env, c.commands, auth, looked);
      }
    }
  }

  lemma {:induction false} OnlyAllowedInAll<S>(env: Env<S>, cs: seq<Command>, auth: Option<AuthContext>, st: State<S>)
    ensures AddsOnlyAllowed(env, auth, st, ExecuteAll(env, cs, auth, st).0)
    decreases cs
  {
    hide Execute, Allowed;
    if cs != [] {
      OnlyAllowedReachHandlers(env, cs[0], auth, st);
      OnlyAllowedInAll(env, cs[1..], auth, Execute(env, cs[0], auth, st).0);
    }
  }

  /** A context that may not write anywhere and has no admin rights; also a missing context. */
  ghost predicate CannotWrite<S>(env: Env<S>, auth: Option<AuthContext>) {
    auth.Some? ==>
      && env.check(auth.value, Admin).Some?
      && forall ns :: env.check(auth.value, Namespace(ns, Write)).Some?
  }

  lemma AllowedReadsKeepStore<S>(env: Env<S>, c: Command, auth: Option<AuthContext>, s: S)
    requires CannotWrite(env, auth) && !c.Pipeline? && Allowed(env.check, c, auth)
    ensures Dispatch(env.backend, s, c).0 == s
  {
    hide HandleGet, HandleList, HandleVersions, HandleNamespaces, HandleInfo;
  }

  /** Whatever such a context sends, in whatever pipelines, the store stays as it was. */
  lemma {:induction false} ReadersKeepStore<S>(env: Env<S>, c: Command, auth: Option<AuthContext>, st: State<S>)
    requires CannotWrite(env, auth)
    ensures Execute(env, c, auth, st).0.store == st.store
    decreases c
  {
    hide Dispatch, ToFrame, CannotWrite, Refusal, Allowed;
    if !c.Pipeline? {
      RefusedExactly(env.check, c, auth);
      if Refusal(env.check, c, auth).None? {
        AllowedReadsKeepStore(env, c, auth, st.store);
      }
    } else if c.requestId.None? {
      ReadersKeepStoreInAll(env, c.commands, auth, st);
    } else {
      var looked := Looked(env, c.requestId.value, st);
      ReadersKeepStoreInAll(env, c.commands, auth, looked);
    }
  }

  lemma {:induction false} ReadersKeepStoreInAll<S>(env: Env<S>, cs: seq<Command>, auth: Option<AuthContext>,
                                                    st: State<S>)
    requires CannotWrite(env, auth)
    ensures ExecuteAll(env, cs, auth, st).0.store == st.store
    decreases cs
  {
    hide Execute, CannotWrite;
    if cs != [] {
      ReadersKeepStore(env, cs[0], auth, st);
      ReadersKeepStoreInAll(env, cs[1..], auth, Execute(env, cs[0], auth, st).0);
    }
  }
}
