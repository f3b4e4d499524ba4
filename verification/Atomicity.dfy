/**
  When a pipeline is all or nothing. The dispatcher has no rollback, so the answer depends on which
  commands stand together.
 */
module Atomicity {
  import opened Text
  import opened Commands
  import opened Replies
  import opened Handlers
  import opened WireErrors
  import opened Idempotency
  import opened Dispatcher
  import opened ExecutionFacts

  predicate NeverFails(c: Command) {
    c.Ping? || c.Health? || c.CommandList?
  }

  /** Commands whose handlers may change the store. */
  predicate Changes(c: Command) {
    IsWrite(c) || IsAdministrative(c)
  }

  predicate MayChange(check: Check, auth: Option<AuthContext>, c: Command) {
    Changes(c) && Allowed(check, c, auth)
  }

  /** No permitted write or administrative command stands together with another command that can fail. */
  predicate Harmless(check: Check, auth: Option<AuthContext>, ls: seq<Command>) {
    forall i, j :: 0 <= i < |ls| && 0 <= j < |ls| && i != j && MayChange(check, auth, ls[i]) ==> NeverFails(ls[j])
  }

  /** Some command that ran has failed. A reply from the cache stands for commands that did not run. */
  predicate HasFailed(r: CommandResponse) {
    r.Failure? || (r.Many? && AnyFailed(r.responses))
  }

  predicate AnyFailed(rs: seq<CommandResponse>) {
    exists i :: 0 <= i < |rs| && HasFailed(rs[i])
  }

  /** All or nothing, of one execution: if any command failed, the store is as it was. */
  ghost predicate AllOrNothing<S>(env: Env<S>, c: Command, auth: Option<AuthContext>, st: State<S>) {
    var (end, r) := Execute(env, c, auth, st);
    HasFailed(r) ==> end.store == st.store
  }

  /** A store whose failed changes leave it as it was. */
  ghost predicate FailuresKeepStore<S(!new)>(b: Backend<S>) {
    && (forall s, op :: b.write(s, op).1.Err? ==> b.write(s, op).0 == s)
    && (forall s, op :: b.admin(s, op).1.Err? ==> b.admin(s, op).0 == s)
  }

  // ---- Harmless pipelines are all or nothing ----

  lemma ChangeKeeps<S(!new)>(b: Backend<S>, s: S, c: Command)
    requires Changes(c) && FailuresKeepStore(b)
    ensures Dispatch(b, s, c).1.Err? ==> Dispatch(b, s, c).0 == s
  {
    hide WriteError;
  }

  lemma ReadKeeps<S>(b: Backend<S>, s: S, c: Command)
    requires !Changes(c) && !c.Pipeline?
    ensures Dispatch(b, s, c).0 == s && (NeverFails(c) ==> Dispatch(b, s, c).1.Ok?)
  {
    hide HandleWrite, HandleGet, HandleList, HandleVersions, HandleNamespaces, HandleInfo;
  }

  lemma LeafKeeps<S(!new)>(env: Env<S>, c: Command, auth: Option<AuthContext>, st: State<S>)
    requires !c.Pipeline?
    ensures var (end, r) := Execute(env, c, auth, st);
            && (!MayChange(env.check, auth, c) ==> end.store == st.store)
            && (NeverFails(c) ==> !HasFailed(r) && end.store == st.store)
            && (FailuresKeepStore(env.backend) && HasFailed(r) ==> end.store == st.store)
  {
    hide Dispatch, Execute, FailuresKeepStore, Allowed, RefusalText, ErrorText;
    LeafIsGuarded(env, c, auth, st);
    NeverRefused(env.check, c, auth);
    if !Changes(c) {
      ReadKeeps(env.backend, st.store, c);
    } else if FailuresKeepStore(env.backend) {
      ChangeKeeps(env.backend, st.store, c);
    }
  }

  lemma NeverRefused(check: Check, c: Command, auth: Option<AuthContext>)
    ensures NeverFails(c) ==> Allowed(check, c, auth)
  {
  }

  predicate NoneChanges(check: Check, auth: Option<AuthContext>,
                        ls: seq<Command>) {
    forall i :: 0 <= i < |ls| ==> !MayChange(check, auth, ls[i])
  }

  predicate NoneFails(ls: seq<Command>) {
    forall i :: 0 <= i < |ls| ==> NeverFails(ls[i])
  }

  /** What a tree does to the store, by its leaves. */
  ghost predicate Behaves<S(!new)
      >(env: Env<S>, auth: Option<AuthContext>, ls: seq<Command>, before: S, failed: bool, after: S)
  {
    && (NoneChanges(env.check, auth, ls) ==> after == before)
    && (NoneFails(ls) ==> !failed && after == before)
    && (FailuresKeepStore(env.backend) && Harmless(env.check, auth, ls) && failed ==> after == before)
  }

  lemma PartsAreHarmless(check: Check, auth: Option<AuthContext>,
                         a: seq<Command>, b: seq<Command>)
    ensures NoneChanges(check, auth, a + b) <==> NoneChanges(check, auth, a) && NoneChanges(check, auth, b)
    ensures NoneFails(a + b) <==> NoneFails(a) && NoneFails(b)
    ensures Harmless(check, auth, a + b) <==>
            && Harmless(check, auth, a) && Harmless(check, auth, b)
            && (NoneChanges(check, auth, a) || NoneFails(b)) && (NoneChanges(check, auth, b) || NoneFails(a))
  {
    hide MayChange, NeverFails;
    var ab := a + b;
    assert forall i :: 0 <= i < |a| ==> ab[i] == a[i];
    assert forall i :: 0 <= i < |b| ==> ab[|a| + i] == b[i];
    assert forall i :: |a| <= i < |ab| ==> ab[i] == b[i - |a|];
  }

  lemma BehavesInSequence<S(!new)>(env: Env<S>, auth: Option<AuthContext>, a: seq<Command>, b: seq<Command>,
                                   s0: S, failedA: bool, s1: S, failedB: bool, s2: S)
    requires Behaves(env, auth, a, s0, failedA, s1) && Behaves(env, auth, b, s1, failedB, s2)
    ensures Behaves(env, auth, a + b, s0, failedA || failedB, s2)
  {
    hide Harmless, NoneChanges, NoneFails, FailuresKeepStore;
    PartsAreHarmless(env.check, auth, a, b);
  }

  lemma {:induction false} TreeBehaves<S(!new)>(env: Env<S>, c: Command, auth: Option<AuthContext>, st: State<S>)
    ensures var (end, r) := Execute(env, c, auth, st);
            Behaves(env, auth, Leaves(c), st.store, HasFailed(r), end.store)
    decreases c
  {
    hide Dispatch, ToFrame, Fresh, Refusal, MayChange, NeverFails, FailuresKeepStore;
    if !c.Pipeline? {
      LeafKeeps(env, c, auth, st);
      assert Leaves(c)[0] == c;
    } else if c.requestId.None? {
      AllBehave(env, c.commands, auth, st);
    } else {
      AllBehave(env, c.commands, auth, Looked(env, c.requestId.value, st));
    }
  }

  lemma {:induction false} AllBehave<S(!new)>(env: Env<S>, cs: seq<Command>, auth: Option<AuthContext>, st: State<S>)
    ensures var (end, rs) := ExecuteAll(env, cs, auth, st);
            Behaves(env, auth, AllLeaves(cs), st.store, AnyFailed(rs), end.store)
    decreases cs
  {
    hide Execute, Behaves, HasFailed;
    if cs == [] {
      NothingBehaves(env, auth, st.store);
    } else {
      var (st1, r) := Execute(env, cs[0], auth, st);
      var (st2, rs) := ExecuteAll(env, cs[1..], auth, st1);
      TreeBehaves(env, cs[0], auth, st);
      AllBehave(env, cs[1..], auth, st1);
      FirstOrOthers(r, rs);
      BehavesInSequence(env, auth, Leaves(cs[0]), AllLeaves(cs[1..]), st.store, HasFailed(r), st1.store,
          AnyFailed(rs), st2.store);
    }
  }

  lemma NothingBehaves<S(!new)>(env: Env<S>, auth: Option<AuthContext>, s: S)
    ensures Behaves(env, auth, [], s, AnyFailed([]), s)
  {
  }

  lemma FirstOrOthers(r: CommandResponse, rs: seq<CommandResponse>)
    ensures AnyFailed([r] + rs) <==> HasFailed(r) || AnyFailed(rs)
  {
    hide HasFailed;
    var all := [r] + rs;
    assert all[0] == r && forall i :: 0 <= i < |rs| ==> all[i + 1] == rs[i];
    if AnyFailed(rs) {
      var i :| 0 <= i < |rs| && HasFailed(rs[i]);
      assert HasFailed(all[i + 1]);
    }
  }

  // ---- Harmful pipelines are not, for some store ----

  /**
    A store that takes one particular change once and refuses everything else. Its state says whether
    the change was made.
   */
  function Spite(target: Command): Backend<bool> {
    Backend(
      (s, op) => if !s && CommandFor(op) == target then (true, Ok(1)) else (s, Err(Missing)),
      (s, op) => if !s && AdminCommandFor(op) == target then (true, Ok(OK_FIELDS)) else (s, Err(NotFound)),
      (s, ns, key, version) => Err(Missing),
      (s, ns, prefix, cursor, limit) => Err(Missing),
      (s, ns, key, limit, from) => Err(Missing),
      (s, cursor, limit) => Err(Missing),
      (s, ns) => Err(Missing),
      (s, c) => Err(NotFound),
      OK_FIELDS,
      j => None,
      e => [])
  }

  /** A clock on which every cached reply has expired by the next reading. */
  function Slow(t: nat): nat {
    t * TTL_SECS * NANOS_PER_SEC
  }

  function SpitefulEnv(target: Command, check: Check, codec: JsonCodec)
      : Env<bool>
  {
    Env(Spite(target), codec, check, Slow)
  }

  lemma SpiteIsLawful(target: Command)
    ensures FailuresKeepStore(Spite(target)) && Monotone(Slow)
  {
  }

  /** The leaf fails, in that store. */
  predicate FailsNow(target: Command, spent: bool, c: Command) {
    !NeverFails(c) && (spent || c != target)
  }

  predicate FailsIn(target: Command, spent: bool, ls: seq<Command>)
    decreases |ls|
  {
    ls != [] && (FailsNow(target, spent, ls[0]) || FailsIn(target, spent || ls[0] == target, ls[1..]))
  }

  lemma WriteUnderSpite(target: Command, op: WriteOp, s: bool)
    ensures var (s', r) := HandleWrite(Spite(target), s, op);
            s' == (s || CommandFor(op) == target) && (r.Err? <==> s || CommandFor(op) != target)
  {
    hide WriteError, CommandFor, AdminCommandFor;
  }

  lemma AdminUnderSpite(target: Command, op: AdminOp, s: bool)
    ensures var (s', r) := Spite(target).admin(s, op);
            s' == (s || AdminCommandFor(op) == target) && (r.Err? <==> s || AdminCommandFor(op) != target)
  {
    hide CommandFor, AdminCommandFor;
  }

  lemma ChangesUnderSpite(target: Command, c: Command, s: bool)
    requires Changes(c)
    ensures var (s', r) := Dispatch(Spite(target), s, c);
            s' == (s || c == target) && (r.Err? <==> s || c != target)
  {
    hide Dispatch, HandleWrite, Spite, CommandFor, AdminCommandFor;
    if IsWrite(c) {
      WriteIsRouted(Spite(target), s, c);
      WriteUnderSpite(target, WriteOf(c), s);
    } else {
      AdminIsRouted(Spite(target), s, c);
      AdminUnderSpite(target, AdminOf(c), s);
    }
  }

  lemma OthersUnderSpite(target: Command, c: Command, s: bool)
    requires !c.Pipeline? && !Changes(c)
    ensures var (s', r) := Dispatch(Spite(target), s, c);
            s' == s && (r.Err? <==> !NeverFails(c))
  {
    hide HandleWrite, CommandFor, AdminCommandFor, ErrorText;
  }

  lemma HandlersUnderSpite(target: Command, c: Command, s: bool)
    requires !c.Pipeline? && Changes(target)
    ensures var (s', r) := Dispatch(Spite(target), s, c);
            s' == (s || c == target) && (r.Err? <==> FailsNow(target, s, c))
  {
    hide Dispatch, Spite;
    if Changes(c) {
      ChangesUnderSpite(target, c, s);
    } else {
      OthersUnderSpite(target, c, s);
    }
  }

  lemma FlatFails(r: CommandResponse)
    ensures !r.Many? ==> (HasFailed(r) <==> r.Failure?)
  {
  }

  lemma LeafUnderSpite(target: Command, check: Check, codec: JsonCodec,
                       c: Command, auth: Option<AuthContext>, st: State<bool>)
    requires !c.Pipeline? && MayChange(check, auth, target)
    ensures var (end, r) := Execute(SpitefulEnv(target, check, codec), c, auth, st);
            && end == st.(store := st.store || c == target, trace := end.trace)
            && (HasFailed(r) <==> FailsNow(target, st.store, c))
  {
    hide Execute, Dispatch, Spite, Allowed, RefusalText, ErrorText, HasFailed, NeverFails;
    var env := SpitefulEnv(target, check, codec);
    LeafIsGuarded(env, c, auth, st);
    NeverRefused(check, c, auth);
    HandlersUnderSpite(target, c, st.store);
    FlatFails(Execute(env, c, auth, st).1);
    if Allowed(check, c, auth) {
      assert Execute(env, c, auth, st).0.store == Dispatch(Spite(target), st.store, c).0;
    } else {
      assert c != target;
    }
  }

  /** Every cached reply has expired. */
  predicate AllOld(st: State<bool>) {
    forall id :: id in st.cache ==> st.cache[id].createdAt + TTL_SECS * NANOS_PER_SEC <= Slow(st.ticks)
  }

  lemma OldIsNotFound(st: State<bool>, id: Bytes)
    requires AllOld(st)
    ensures Found(st.cache, id, Slow(st.ticks)).None?
  {
  }

  lemma SlowSteps(t: nat, u: nat)
    ensures Slow(t) + TTL_SECS * NANOS_PER_SEC == Slow(t + 1)
    ensures t <= u ==> Slow(t) <= Slow(u)
  {
  }

  lemma {:induction false} FailsConcat(target: Command, spent: bool, a: seq<Command>, b: seq<Command>)
    ensures FailsIn(target, spent, a + b) <==> FailsIn(target, spent, a) || FailsIn(target, spent || target in a, b)
    decreases |a|
  {
    hide FailsNow;
    if a == [] {
      assert a + b == b;
    } else {
      assert (a + b)[0] == a[0] && (a + b)[1..] == a[1..] + b;
      assert target in a <==> a[0] == target || target in a[1..];
      FailsConcat(target, spent || a[0] == target, a[1..], b);
    }
  }

  /** A tree under that store and clock is its leaves, one after the other. */
  lemma {:induction false} TreeUnderSpite(target: Command, check: Check,
                                          codec: JsonCodec, c: Command, auth: Option<AuthContext>, st: State<bool>)
    requires MayChange(check, auth, target) && AllOld(st)
    ensures var (end, r) := Execute(SpitefulEnv(target, check, codec), c, auth, st);
            && AllOld(end)
            && end.store == (st.store || target in Leaves(c))
            && (HasFailed(r) <==> FailsIn(target, st.store, Leaves(c)))
    decreases c
  {
    hide Dispatch, ToFrame, Fresh, Refusal, MayChange, FailsNow, Slow, Spite;
    var env := SpitefulEnv(target, check, codec);
    if !c.Pipeline? {
      LeafUnderSpite(target, check, codec, c, auth, st);
      assert Leaves(c)[0] == c && Leaves(c)[1..] == [];
    } else if c.requestId.None? {
      AllUnderSpite(target, check, codec, c.commands, auth, st);
    } else {
      var id := c.requestId.value;
      OldIsNotFound(st, id);
      var looked := Looked(env, id, st);
      SlowSteps(st.ticks, looked.ticks);
      AllUnderSpite(target, check, codec, c.commands, auth, looked);
      var st1 := ExecuteAll(env, c.commands, auth, looked).0;
      SlowSteps(st1.ticks, st1.ticks + 1);
    }
  }

  lemma {:induction false} AllUnderSpite(target: Command, check: Check,
                                         codec: JsonCodec, cs: seq<Command>, auth: Option<AuthContext>,
                                         st: State<bool>)
    requires MayChange(check, auth, target) && AllOld(st)
    ensures var (end, rs) := ExecuteAll(SpitefulEnv(target, check, codec), cs, auth, st);
            && AllOld(end)
            && end.store == (st.store || target in AllLeaves(cs))
            && (AnyFailed(rs) <==> FailsIn(target, st.store, AllLeaves(cs)))
    decreases cs
  {
    hide Execute, MayChange, FailsNow, HasFailed, SpitefulEnv, AllOld;
    var env := SpitefulEnv(target, check, codec);
    if cs != [] {
      var (st1, r) := Execute(env, cs[0], auth, st);
      var (st2, rs) := ExecuteAll(env, cs[1..], auth, st1);
      TreeUnderSpite(target, check, codec, cs[0], auth, st);
      AllUnderSpite(target, check, codec, cs[1..], auth, st1);
      FirstOrOthers(r, rs);
      FailsConcat(target, st.store, Leaves(cs[0]), AllLeaves(cs[1..]));
    }
  }

  /** Once the change is made, whatever can fail does. */
  lemma {:induction false} SpentFails(target: Command, ls: seq<Command>, j: nat)
    requires j < |ls| && !NeverFails(ls[j])
    ensures FailsIn(target, true, ls)
    decreases |ls|
  {
    if j > 0 {
      SpentFails(target, ls[1..], j - 1);
    }
  }

  lemma {:induction false} CompanionFails(target: Command, ls: seq<Command>, i: nat, j: nat)
    requires i < |ls| && j < |ls| && i != j && ls[i] == target && Changes(target) && !NeverFails(ls[j])
    ensures FailsIn(target, false, ls)
    decreases |ls|
  {
    if ls[0] == target {
      var k := if i > 0 then i else j;
      SpentFails(target, ls[1..], k - 1);
    } else if i > 0 && j > 0 {
      CompanionFails(target, ls[1..], i - 1, j - 1);
    }
  }

  /** Where everything starts: nothing changed, nothing cached. */
  const UNTOUCHED: State<bool> := State(false, map[], 0, [], [])

  lemma HarmfulIsNotAtomic(check: Check, codec: JsonCodec, c: Command,
                           auth: Option<AuthContext>, i: nat, j: nat)
    requires i < |Leaves(c)| && j < |Leaves(c)| && i != j
    requires MayChange(check, auth, Leaves(c)[i]) && !NeverFails(Leaves(c)[j])
    ensures !AllOrNothing(SpitefulEnv(Leaves(c)[i], check, codec), c, auth, UNTOUCHED)
  {
    hide Execute, HasFailed, SpitefulEnv;
    TreeUnderSpite(Leaves(c)[i], check, codec, c, auth, UNTOUCHED);
    CompanionFails(Leaves(c)[i], Leaves(c), i, j);
  }

  /**
    The documents promise that a pipeline succeeds as a whole or is rolled back. For a given access check
    and context, a command tree has that property for every store whose failed changes leave it as it was,
    every clock and every state, if and only if no permitted write or administrative command in it stands
    together with another command that can fail.
   */
  lemma AllOrNothingExactly(check: Check, codec: JsonCodec, c: Command,
                            auth: Option<AuthContext>)
    ensures Harmless(check, auth, Leaves(c)) <==>
            forall b: Backend<bool>, clock: nat -> nat, st: State<bool> ::
              FailuresKeepStore(b) && Monotone(clock) ==> AllOrNothing(Env(b, codec, check, clock), c, auth, st)
  {
    hide AllOrNothing, FailuresKeepStore, Monotone, MayChange, NeverFails, Slow, Spite;
    if Harmless(check, auth, Leaves(c)) {
      forall b: Backend<bool>, clock: nat -> nat, st: State<bool> | FailuresKeepStore(b) && Monotone(clock)
        ensures AllOrNothing(Env(b, codec, check, clock), c, auth, st)
      {
        HarmlessIsAtomic(Env(b, codec, check, clock), c, auth, st);
      }
    } else {
      var i, j :| 0 <= i < |Leaves(c)| && 0 <= j < |Leaves(c)| && i != j
                  && MayChange(check, auth, Leaves(c)[i]) && !NeverFails(Leaves(c)[j]);
      HarmfulIsNotAtomic(check, codec, c, auth, i, j);
      SpiteIsLawful(Leaves(c)[i]);
    }
  }

  /** For stores of any kind: a harmless tree with a failed command leaves the store as it was. */
  lemma HarmlessIsAtomic<S(!new)>(env: Env<S>, c: Command, auth: Option<AuthContext>, st: State<S>)
    requires FailuresKeepStore(env.backend) && Harmless(env.check, auth, Leaves(c))
    ensures AllOrNothing(env, c, auth, st)
  {
    hide Execute, FailuresKeepStore, Harmless, HasFailed;
    TreeBehaves(env, c, auth, st);
  }

  /** The smallest case: a write that succeeds, then a read that fails, and the write stays. */
  lemma WriteBeforeFailedReadStays(codec: JsonCodec, ctx: AuthContext)
    ensures var write := Put("ns", "key", "value", None, None);
            var env := SpitefulEnv(write, (_, _) => None, codec);
            var (end, r) := Execute(env, Pipeline([write, Get("ns", "other", None, false)], None), Some(ctx),
                UNTOUCHED);
            HasFailed(r) && end.store != UNTOUCHED.store
  {
    var write := Put("ns", "key", "value", None, None);
    var read := Get("ns", "other", None, false);
    var c := Pipeline([write, read], None);
    assert Leaves(c) == [write, read] by {
      assert [write, read][1..] == [read] && [read][1..] == [];
      assert AllLeaves([read]) == Leaves(read) + AllLeaves([]);
      assert AllLeaves([write, read]) == Leaves(write) + AllLeaves([read]);
    }
    HarmfulIsNotAtomic((_, _) => None, codec, c, Some(ctx), 0, 1);
  }
}
