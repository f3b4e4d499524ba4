/**
  What a context cannot see. A store is local to namespaces when its operations on other namespaces neither
  see nor touch a given one. Two runs that start from stores which differ only in that one are compared.
 */
module Isolation {
  import opened Text
  import opened Commands
  import opened Replies
  import opened Handlers
  import opened WireErrors
  import opened Idempotency
  import opened Dispatcher
  import opened ExecutionFacts
  import opened Retries
  import opened Atomicity

  /** The command reads, writes or administers this namespace. */
  predicate Concerns(c: Command, ns: Bytes) {
    || ((c.Get? || c.List? || c.Versions?) && c.ns == ns)
    || (IsWrite(c) && c.ns == ns)
    || ((c.NamespaceInfo? || c.NamespaceValidate?) && c.name == ns)
    || ((c.NamespaceCreate? || c.NamespaceDrop? || c.NamespaceAlter?) && c.name == ns)
  }

  /** Whether two stores agree outside the namespace. */
  type Agreement<!S> = (S, S) -> bool

  ghost predicate LocalReads<S(!new)>(b: Backend<S>, ns: Bytes, agree: Agreement<S>) {
    && (forall s, t, n, key, v :: agree(s, t) && n != ns ==> b.get(s, n, key, v) == b.get(t, n, key, v))
    && (forall s, t, n, p, c, l :: agree(s, t) && n != ns ==> b.list(s, n, p, c, l) == b.list(t, n, p, c, l))
    && (forall s, t, n, k, l, f :: agree(s, t) && n != ns ==> b.versions(s, n, k, l, f) == b.versions(t, n, k, l, f))
    && (forall s, t, n :: agree(s, t) && n != ns ==> b.info(s, n) == b.info(t, n))
    && (forall s, t, c, l :: agree(s, t) ==> b.namespaces(s, c, l) == b.namespaces(t, c, l))
    && (forall s, t, c :: agree(s, t) && !Concerns(c, ns) ==> b.inspect(s, c) == b.inspect(t, c))
  }

  ghost predicate LocalWrites<S(!new)>(b: Backend<S>, ns: Bytes, agree: Agreement<S>) {
    && (forall s, t, op :: agree(s, t) && !Concerns(CommandFor(op), ns) ==>
          b.write(s, op).1 == b.write(t, op).1 && agree(b.write(s, op).0, b.write(t, op).0))
    && (forall s, t, op :: agree(s, t) && !Concerns(AdminCommandFor(op), ns) ==>
          b.admin(s, op).1 == b.admin(t, op).1 && agree(b.admin(s, op).0, b.admin(t, op).0))
  }

  /** Operations that are not on the namespace neither see nor touch it. */
  ghost predicate Local<S(!new)>(b: Backend<S>, ns: Bytes, agree: Agreement<S>) {
    LocalReads(b, ns, agree) && LocalWrites(b, ns, agree)
  }

  /** The same but for the namespace: stores that agree outside it, and the same cached replies at the same time. */
  predicate Alike<S>(agree: Agreement<S>, st: State<S>, tt: State<S>) {
    agree(st.store, tt.store) && st.cache == tt.cache && st.ticks == tt.ticks
  }

  /** No command among these that the context may send is on the namespace. */
  predicate Avoids(check: Check, auth: Option<AuthContext>, ls: seq<Command>, ns: Bytes) {
    forall i :: 0 <= i < |ls| && Allowed(check, ls[i], auth) ==> !Concerns(ls[i], ns)
  }

  /** The two runs give the same reply and stay alike. */
  ghost predicate SameOutcome<S>(env: Env<S>, c: Command, auth: Option<AuthContext>, agree: Agreement<S>,
                                 st: State<S>, tt: State<S>) {
    var (st', r) := Execute(env, c, auth, st);
    var (tt', q) := Execute(env, c, auth, tt);
    r == q && Alike(agree, st', tt')
  }

  // ---- Commands that avoid the namespace ----

  lemma WritesAlike<S(!new)>(b: Backend<S>, ns: Bytes, agree: Agreement<S>, s: S, t: S, op: WriteOp)
    requires LocalWrites(b, ns, agree) && agree(s, t) && !Concerns(CommandFor(op), ns)
    ensures HandleWrite(b, s, op).1 == HandleWrite(b, t, op).1
            && agree(HandleWrite(b, s, op).0, HandleWrite(b, t, op).0)
  {
    hide WriteError, CommandFor, Concerns;
  }

  lemma ReadsAlike<S(!new)>(b: Backend<S>, ns: Bytes, agree: Agreement<S>, s: S, t: S, c: Command)
    requires LocalReads(b, ns, agree) && agree(s, t) && !Concerns(c, ns) && !c.Pipeline? && !Changes(c)
    ensures Dispatch(b, s, c) == (s, Dispatch(b, t, c).1) && Dispatch(b, t, c).0 == t
  {
    hide HandleWrite, EntryFields, PageFields, HistoryFields, NamesFields, FactsFields, Located;
  }

  lemma ChangesAlike<S(!new)>(b: Backend<S>, ns: Bytes, agree: Agreement<S>, s: S, t: S, c: Command)
    requires LocalWrites(b, ns, agree) && agree(s, t) && !Concerns(c, ns) && Changes(c)
    ensures Dispatch(b, s, c).1 == Dispatch(b, t, c).1 && agree(Dispatch(b, s, c).0, Dispatch(b, t, c).0)
  {
    hide Dispatch, HandleWrite, Concerns, LocalWrites, CommandFor, AdminCommandFor;
    if IsWrite(c) {
      WriteIsRouted(b, s, c);
      WriteIsRouted(b, t, c);
      WritesAlike(b, ns, agree, s, t, WriteOf(c));
    } else {
      AdminIsRouted(b, s, c);
      AdminIsRouted(b, t, c);
      AdminAlike(b, ns, agree, s, t, AdminOf(c));
    }
  }

  lemma AdminAlike<S(!new)>(b: Backend<S>, ns: Bytes, agree: Agreement<S>, s: S, t: S, op: AdminOp)
    requires LocalWrites(b, ns, agree) && agree(s, t) && !Concerns(AdminCommandFor(op), ns)
    ensures b.admin(s, op).1 == b.admin(t, op).1 && agree(b.admin(s, op).0, b.admin(t, op).0)
  {
    hide Concerns, AdminCommandFor;
  }

  lemma LeafIsBlind<S(!new)>(env: Env<S>, c: Command, auth: Option<AuthContext>, ns: Bytes, agree: Agreement<S>,
                             st: State<S>, tt: State<S>)
    requires Local(env.backend, ns, agree) && Alike(agree, st, tt) && !c.Pipeline?
    requires Allowed(env.check, c, auth) ==> !Concerns(c, ns)
    ensures SameOutcome(env, c, auth, agree, st, tt)
  {
    hide Dispatch, Allowed, Concerns, LocalReads, LocalWrites, Refusal, Changes;
    RefusedExactly(env.check, c, auth);
    if Allowed(env.check, c, auth) {
      if Changes(c) {
        ChangesAlike(env.backend, ns, agree, st.store, tt.store, c);
      } else {
        ReadsAlike(env.backend, ns, agree, st.store, tt.store, c);
      }
    }
  }

  lemma AvoidsParts(check: Check, auth: Option<AuthContext>, a: seq<Command>, b: seq<Command>, ns: Bytes)
    ensures Avoids(check, auth, a + b, ns) <==> Avoids(check, auth, a, ns) && Avoids(check, auth, b, ns)
  {
    hide Allowed, Concerns;
    var ab := a + b;
    assert forall i :: 0 <= i < |a| ==> ab[i] == a[i];
    assert forall i :: 0 <= i < |b| ==> ab[|a| + i] == b[i];
    assert forall i :: |a| <= i < |ab| ==> ab[i] == b[i - |a|];
  }

  /**
    Non-interference, for stores of any kind: if no command of the tree that the context may send is on the
    namespace, then from two stores that differ only in that namespace, with the same cached replies, it gives
    the same reply, leaves the same cached replies, and stores that still differ only there.
   */
  lemma {:induction false} NothingIsSeen<S(!new)>(env: Env<S>, c: Command, auth: Option<AuthContext>, ns: Bytes,
                                                  agree: Agreement<S>, st: State<S>, tt: State<S>)
    requires Local(env.backend, ns, agree) && Alike(agree, st, tt) && Avoids(env.check, auth, Leaves(c), ns)
    ensures SameOutcome(env, c, auth, agree, st, tt)
    decreases c
  {
    hide Local, Allowed, Concerns, ToFrame, Fresh, ExecuteLeaf;
    if !c.Pipeline? {
      assert Leaves(c)[0] == c;
      LeafIsBlind(env, c, auth, ns, agree, st, tt);
    } else if c.requestId.None? {
      NothingIsSeenInAll(env, c.commands, auth, ns, agree, st, tt);
    } else {
      var id := c.requestId.value;
      NothingIsSeenInAll(env, c.commands, auth, ns, agree, Looked(env, id, st), Looked(env, id, tt));
    }
  }

  lemma {:induction false} NothingIsSeenInAll<S(!new)>(env: Env<S>, cs: seq<Command>, auth: Option<AuthContext>,
                                                       ns: Bytes, agree: Agreement<S>, st: State<S>, tt: State<S>)
    requires Local(env.backend, ns, agree) && Alike(agree, st, tt) && Avoids(env.check, auth, AllLeaves(cs), ns)
    ensures var (st', rs) := ExecuteAll(env, cs, auth, st);
            var (tt', qs) := ExecuteAll(env, cs, auth, tt);
            rs == qs && Alike(agree, st', tt')
    decreases cs
  {
    hide Local, Execute, Avoids, Alike;
    if cs != [] {
      AvoidsParts(env.check, auth, Leaves(cs[0]), AllLeaves(cs[1..]), ns);
      NothingIsSeen(env, cs[0], auth, ns, agree, st, tt);
      var st1, tt1 := Execute(env, cs[0], auth, st).0, Execute(env, cs[0], auth, tt).0;
      NothingIsSeenInAll(env, cs[1..], auth, ns, agree, st1, tt1);
    }
  }

  // ---- Commands that do not ----

  /** A store that has everything but perhaps the namespace; its state says whether it has that. */
  function Secret(ns: Bytes): Backend<bool> {
    Backend(
      (s, op) => (s, if s || !Concerns(CommandFor(op), ns) then Ok(1) else Err(Missing)),
      (s, op) => (s, if s || !Concerns(AdminCommandFor(op), ns) then Ok(OK_FIELDS) else Err(NotFound)),
      (s, n, key, version) => if s || n != ns then Ok(Entry(key, [], 1, JNull)) else Err(Missing),
      (s, n, prefix, cursor, limit) => if s || n != ns then Ok(Page([], None)) else Err(Missing),
      (s, n, key, limit, from) => if s || n != ns then Ok([]) else Err(Missing),
      (s, cursor, limit) => Ok(Page([], None)),
      (s, n) => if s || n != ns then Ok(NamespaceFacts(n, 0, 0)) else Err(Missing),
      (s, c) => if s || !Concerns(c, ns) then Ok(OK_FIELDS) else Err(NotFound),
      OK_FIELDS,
      j => None,
      e => [])
  }

  function SecretEnv(ns: Bytes, check: Check, codec: JsonCodec): Env<bool> {
    Env(Secret(ns), codec, check, Slow)
  }

  lemma SecretIsLocal(ns: Bytes)
    ensures Local(Secret(ns), ns, (s, t) => true)
  {
    hide Concerns, CommandFor, AdminCommandFor;
  }

  lemma WriteIsTold(ns: Bytes, op: WriteOp, s: bool)
    ensures HandleWrite(Secret(ns), s, op).0 == s
    ensures HandleWrite(Secret(ns), s, op).1.Err? <==> !s && Concerns(CommandFor(op), ns)
  {
    hide WriteError, CommandFor, AdminCommandFor, Concerns;
  }

  lemma AdminIsTold(ns: Bytes, op: AdminOp, s: bool)
    ensures Secret(ns).admin(s, op).0 == s
            && (Secret(ns).admin(s, op).1.Err? <==> !s && Concerns(AdminCommandFor(op), ns))
  {
    hide CommandFor, AdminCommandFor, Concerns;
  }

  lemma ChangesAreTold(ns: Bytes, c: Command, s: bool)
    requires Changes(c)
    ensures Dispatch(Secret(ns), s, c).0 == s
    ensures Dispatch(Secret(ns), s, c).1.Err? <==> !s && Concerns(c, ns)
  {
    hide Dispatch, HandleWrite, Secret, Concerns, CommandFor, AdminCommandFor;
    if IsWrite(c) {
      WriteIsRouted(Secret(ns), s, c);
      WriteIsTold(ns, WriteOf(c), s);
    } else {
      AdminIsRouted(Secret(ns), s, c);
      AdminIsTold(ns, AdminOf(c), s);
    }
  }

  lemma ReadsAreTold(ns: Bytes, c: Command, s: bool)
    requires !Changes(c) && !c.Pipeline?
    ensures Dispatch(Secret(ns), s, c).0 == s
    ensures Concerns(c, ns) ==> (Dispatch(Secret(ns), s, c).1.Err? <==> !s)
  {
    hide HandleWrite, EntryFields, PageFields, HistoryFields, FactsFields, NamesFields, Located, CommandFor;
    hide AdminCommandFor;
  }

  /** A permitted command on the namespace fails without it and succeeds with it; nothing changes the store. */
  lemma LeafTells(ns: Bytes, check: Check, codec: JsonCodec, c: Command, auth: Option<AuthContext>, st: State<bool>)
    requires !c.Pipeline?
    ensures var (end, r) := Execute(SecretEnv(ns, check, codec), c, auth, st);
            && end == st.(trace := end.trace)
            && (Allowed(check, c, auth) && Concerns(c, ns) ==> (r.Failure? <==> !st.store))
  {
    hide Execute, Dispatch, Secret, Allowed, Concerns, Changes, RefusalText, ErrorText;
    LeafIsGuarded(SecretEnv(ns, check, codec), c, auth, st);
    if Changes(c) {
      ChangesAreTold(ns, c, st.store);
    } else {
      ReadsAreTold(ns, c, st.store);
    }
  }

  /** Two states without fresh replies, one without the namespace and one with it. */
  predicate Apart(st: State<bool>, tt: State<bool>) {
    AllOld(st) && AllOld(tt) && st.ticks == tt.ticks && !st.store && tt.store
  }

  lemma {:induction false} TreeTells(ns: Bytes, check: Check, codec: JsonCodec, c: Command, auth: Option<AuthContext>,
                                     st: State<bool>, tt: State<bool>)
    requires Apart(st, tt)
    ensures var env := SecretEnv(ns, check, codec);
            var (st', r) := Execute(env, c, auth, st);
            var (tt', q) := Execute(env, c, auth, tt);
            Apart(st', tt') && (r == q ==> Avoids(check, auth, Leaves(c), ns))
    decreases c
  {
    hide Execute, ExecuteAll, Allowed, Concerns, AllOld, SecretEnv;
    var env := SecretEnv(ns, check, codec);
    if !c.Pipeline? {
      LeafTells(ns, check, codec, c, auth, st);
      LeafTells(ns, check, codec, c, auth, tt);
      assert Leaves(c) == [c];
      OldStays(st, Execute(env, c, auth, st).0);
      OldStays(tt, Execute(env, c, auth, tt).0);
    } else if c.requestId.None? {
      AllTell(ns, check, codec, c.commands, auth, st, tt);
      PlainPipeline(env, c.commands, auth, st);
      PlainPipeline(env, c.commands, auth, tt);
    } else {
      var id := c.requestId.value;
      LookedIsOld(ns, check, codec, id, st);
      LookedIsOld(ns, check, codec, id, tt);
      AllTell(ns, check, codec, c.commands, auth, Looked(env, id, st), Looked(env, id, tt));
      RunIsOld(ns, check, codec, c.commands, id, auth, st);
      RunIsOld(ns, check, codec, c.commands, id, auth, tt);
    }
  }

  lemma OldStays(st: State<bool>, end: State<bool>)
    requires AllOld(st) && end.cache == st.cache && end.ticks == st.ticks
    ensures AllOld(end)
  {
  }

  lemma PlainPipeline(env: Env<bool>, cs: seq<Command>, auth: Option<AuthContext>, st: State<bool>)
    ensures Execute(env, Pipeline(cs, None), auth, st)
            == (ExecuteAll(env, cs, auth, st).0, Many(ExecuteAll(env, cs, auth, st).1))
  {
  }

  lemma LookedIsOld(ns: Bytes, check: Check, codec: JsonCodec, id: Bytes, st: State<bool>)
    requires AllOld(st)
    ensures var looked := Looked(SecretEnv(ns, check, codec), id, st);
            AllOld(looked) && looked.ticks == st.ticks + 1 && looked.store == st.store
  {
    hide Fresh, Slow;
    SlowSteps(st.ticks, st.ticks + 1);
  }

  /** With no fresh reply a pipeline runs, and its own reply has expired by the next reading. */
  lemma RunIsOld(ns: Bytes, check: Check, codec: JsonCodec, cs: seq<Command>, id: Bytes, auth: Option<AuthContext>,
                 st: State<bool>)
    requires AllOld(st) && AllOld(ExecuteAll(SecretEnv(ns, check, codec), cs, auth,
                                             Looked(SecretEnv(ns, check, codec), id, st)).0)
    ensures var env := SecretEnv(ns, check, codec);
            var (run, rs) := ExecuteAll(env, cs, auth, Looked(env, id, st));
            var (end, r) := Execute(env, Pipeline(cs, Some(id)), auth, st);
            AllOld(end) && end.ticks == run.ticks + 1 && end.store == run.store && r == Many(rs)
  {
    hide Execute, ExecuteAll, Fresh, Slow, ToFrame, Looked;
    var env := SecretEnv(ns, check, codec);
    OldIsNotFound(st, id);
    ExecutePipeline(env, cs, id, auth, st);
    var run := ExecuteAll(env, cs, auth, Looked(env, id, st)).0;
    SlowSteps(run.ticks, run.ticks + 1);
  }

  lemma {:induction false} AllTell(ns: Bytes, check: Check, codec: JsonCodec, cs: seq<Command>,
                                   auth: Option<AuthContext>, st: State<bool>, tt: State<bool>)
    requires Apart(st, tt)
    ensures var env := SecretEnv(ns, check, codec);
            var (st', rs) := ExecuteAll(env, cs, auth, st);
            var (tt', qs) := ExecuteAll(env, cs, auth, tt);
            Apart(st', tt') && (rs == qs ==> Avoids(check, auth, AllLeaves(cs), ns))
    decreases cs
  {
    hide Execute, Avoids, SecretEnv, Apart;
    var env := SecretEnv(ns, check, codec);
    if cs == [] {
      NothingToAvoid(check, auth, ns);
    } else {
      TreeTells(ns, check, codec, cs[0], auth, st, tt);
      var (st1, r) := Execute(env, cs[0], auth, st);
      var (tt1, q) := Execute(env, cs[0], auth, tt);
      AllTell(ns, check, codec, cs[1..], auth, st1, tt1);
      var rs, qs := ExecuteAll(env, cs[1..], auth, st1).1, ExecuteAll(env, cs[1..], auth, tt1).1;
      assert [r] + rs == [q] + qs ==> r == q && rs == qs by {
        assert ([r] + rs)[1..] == rs && ([q] + qs)[1..] == qs && ([r] + rs)[0] == r && ([q] + qs)[0] == q;
      }
      AvoidsParts(check, auth, Leaves(cs[0]), AllLeaves(cs[1..]), ns);
    }
  }

  lemma NothingToAvoid(check: Check, auth: Option<AuthContext>, ns: Bytes)
    ensures Avoids(check, auth, [], ns)
  {
  }

  const WITHOUT: State<bool> := State(false, map[], 0, [], [])
  const WITH: State<bool> := State(true, map[], 0, [], [])

  // ---- Exactly ----

  /**
    Non-interference exactly: for a given check and context, a command tree has the same outcome from all stores
    that differ only in a namespace, for every store local to namespaces, every clock and all states that are
    otherwise alike, if and only if no command of the tree that the context may send is on that namespace.
   */
  lemma NoninterferenceExactly(check: Check, codec: JsonCodec, c: Command, auth: Option<AuthContext>, ns: Bytes)
    ensures Avoids(check, auth, Leaves(c), ns) <==>
            forall b: Backend<bool>, agree: Agreement<bool>, clock: nat -> nat, st: State<bool>, tt: State<bool> ::
              Local(b, ns, agree) && Monotone(clock) && Alike(agree, st, tt) ==>
                SameOutcome(Env(b, codec, check, clock), c, auth, agree, st, tt)
  {
    hide Local, Monotone, Alike, SameOutcome, Avoids, Secret, Slow;
    if Avoids(check, auth, Leaves(c), ns) {
      forall b: Backend<bool>, agree: Agreement<bool>, clock: nat -> nat, st: State<bool>, tt: State<bool>
          | Local(b, ns, agree) && Monotone(clock) && Alike(agree, st, tt)
        ensures SameOutcome(Env(b, codec, check, clock), c, auth, agree, st, tt)
      {
        NothingIsSeen(Env(b, codec, check, clock), c, auth, ns, agree, st, tt);
      }
    } else {
      SecretIsLocal(ns);
      SpiteIsLawful(Ping);
      SecretIsSeen(check, codec, c, auth, ns);
    }
  }

  lemma SecretIsSeen(check: Check, codec: JsonCodec, c: Command, auth: Option<AuthContext>, ns: Bytes)
    requires !Avoids(check, auth, Leaves(c), ns)
    ensures Alike((s, t) => true, WITHOUT, WITH)
    ensures !SameOutcome(SecretEnv(ns, check, codec), c, auth, (s, t) => true, WITHOUT, WITH)
  {
    hide Execute, Avoids, SecretEnv;
    TreeTells(ns, check, codec, c, auth, WITHOUT, WITH);
  }

  /** A missing context, or one that may neither read nor write the namespace nor administer. */
  predicate IsShutOut(check: Check, auth: Option<AuthContext>, ns: Bytes) {
    auth.Some? ==>
      && check(auth.value, Namespace(ns, Read)).Some? && check(auth.value, Namespace(ns, Write)).Some?
      && check(auth.value, Admin).Some?
  }

  /** Such a context sees nothing of the namespace, whatever it sends, in whatever pipelines. */
  lemma ShutOutSeesNothing<S(!new)>(env: Env<S>, c: Command, auth: Option<AuthContext>, ns: Bytes, agree: Agreement<S>,
                                    st: State<S>, tt: State<S>)
    requires Local(env.backend, ns, agree) && Alike(agree, st, tt) && IsShutOut(env.check, auth, ns)
    ensures SameOutcome(env, c, auth, agree, st, tt)
  {
    hide Local, Execute, Alike;
    NothingIsSeen(env, c, auth, ns, agree, st, tt);
  }

  /**
    Being refused to read is not enough: the reply to a permitted write tells of the namespace. A PUT, for a
    context that may write to it, has different replies from two stores that differ only there.
   */
  lemma WriteTellsOfNamespace(check: Check, codec: JsonCodec, ctx: AuthContext, ns: Bytes, key: Bytes, value: Bytes)
    requires check(ctx, Namespace(ns, Write)).None?
    ensures var put := Put(ns, key, value, None, None);
            !SameOutcome(SecretEnv(ns, check, codec), put, Some(ctx), (s, t) => true, WITHOUT, WITH)
  {
    hide SameOutcome;
    var put := Put(ns, key, value, None, None);
    assert Leaves(put)[0] == put;
    SecretIsSeen(check, codec, put, Some(ctx), ns);
  }
}
