/** What every run of a connection keeps. */
module ConnectionFacts {
  import opened Text
  import opened Frames
  import opened Commands
  import opened CommandParser
  import opened Replies
  import opened Dispatcher
  import opened ExecutionFacts
  import opened PushEvents
  import opened Connection

  // ---- Authorisation over runs ----

  predicate ChangesAuth<S>(a: Action<S>) {
    a.Authenticated? || a.Expired?
  }

  /** The last change of the connection's authentication was a successful AUTH with this context, at `j`. */
  predicate Backs<S>(log: seq<Action<S>>, j: int, ctx: AuthContext) {
    && 0 <= j < |log| && log[j] == Authenticated(ctx)
    && forall k :: j < k < |log| ==> !ChangesAuth(log[k])
  }

  predicate Backed<S>(log: seq<Action<S>>, ctx: AuthContext) {
    exists j :: 0 <= j < |log| && Backs(log, j, ctx)
  }

  /** The context comes from the latest AUTH and was unexpired at the clock reading it was checked against. */
  predicate Covered<S>(g: Gate<S>, log: seq<Action<S>>, auth: Option<AuthContext>, at: Option<nat>) {
    auth.Some? && at.Some? && !g.expired(auth.value, at.value) && Backed(log, auth.value)
  }

  /** What must be true of the i-th action. */
  predicate Justified<S>(g: Gate<S>, log: seq<Action<S>>, i: int)
    requires 0 <= i < |log|
  {
    match log[i]
    case Dispatched(cmd, auth, at, _) => cmd.Ping? || Covered(g, log[..i], auth, at)
    case Subscribed(ns, auth, at) =>
      Covered(g, log[..i], auth, at) && g.env.check(auth.value, Namespace(ns, Read)).None?
    case _ => true
  }

  predicate Safe<S>(g: Gate<S>, c: Conn<S>) {
    && (c.auth.Some? ==> Backed(c.log, c.auth.value))
    && forall i :: 0 <= i < |c.log| ==> Justified(g, c.log, i)
  }

  lemma BackedGrows<S>(log: seq<Action<S>>, a: Action<S>, ctx: AuthContext)
    requires Backed(log, ctx) && !ChangesAuth(a)
    ensures Backed(log + [a], ctx)
  {
    var j :| 0 <= j < |log| && Backs(log, j, ctx);
    assert Backs(log + [a], j, ctx);
  }

  lemma AuthIsBacked<S>(log: seq<Action<S>>, ctx: AuthContext)
    ensures Backed(log + [Authenticated(ctx)], ctx)
  {
    assert Backs(log + [Authenticated(ctx)], |log|, ctx);
  }

  /** One more action, itself justified, keeps every earlier one justified. */
  lemma JustifiedGrows<S>(g: Gate<S>, log: seq<Action<S>>, a: Action<S>)
    requires forall i :: 0 <= i < |log| ==> Justified(g, log, i)
    requires Justified(g, log + [a], |log|)
    ensures forall i :: 0 <= i < |log + [a]| ==> Justified(g, log + [a], i)
  {
    hide Covered;
    forall i | 0 <= i < |log|
      ensures Justified(g, log + [a], i)
    {
      assert Justified(g, log, i);
      assert (log + [a])[..i] == log[..i];
    }
  }

  lemma SayIsSafe<S>(g: Gate<S>, c: Conn<S>, f: Frame, io: Io)
    requires Safe(g, c)
    ensures Safe(g, Say(c, f, io))
  {
    hide Justified, Backed;
    var a: Action<S> := Fate(f, io);
    JustifiedOther(g, c.log, a);
    JustifiedGrows(g, c.log, a);
    if c.auth.Some? {
      BackedGrows(c.log, a, c.auth.value);
    }
  }

  lemma JustifiedOther<S>(g: Gate<S>, log: seq<Action<S>>, a: Action<S>)
    requires !a.Dispatched? && !a.Subscribed?
    ensures Justified(g, log + [a], |log|)
  {
  }

  /** A work action under a covering context keeps the invariant. */
  lemma WorkIsSafe<S>(g: Gate<S>, c: Conn<S>, a: Action<S>)
    requires Safe(g, c)
    requires match a
             case Dispatched(cmd, auth, at, _) => cmd.Ping? || Covered(g, c.log, auth, at)
             case Subscribed(ns, auth, at) => Covered(g, c.log, auth, at)
                 && g.env.check(auth.value, Namespace(ns, Read)).None?
             case _ => false
    ensures Safe(g, Note(c, a))
  {
    hide Backed;
    assert (c.log + [a])[..|c.log|] == c.log && (c.log + [a])[|c.log|] == a;
    assert Justified(g, c.log + [a], |c.log|);
    hide Justified;
    JustifiedGrows(g, c.log, a);
    if c.auth.Some? {
      BackedGrows(c.log, a, c.auth.value);
    }
  }

  lemma AuthenticateIsSafe<S>(g: Gate<S>, c: Conn<S>, token: Bytes, io: Io)
    requires Safe(g, c)
    ensures Safe(g, Authenticate(g, c, token, io))
  {
    hide Safe, ToFrame;
    match g.validate(token)
    case Ok(ctx) =>
      var noted := Note(c.(auth := Some(ctx)), Authenticated(ctx));
      AuthChangeIsSafe(g, c, Authenticated(ctx));
      SayIsSafe(g, noted, ToFrame(Success(OK_FIELDS + [("actor", VString(ctx.actor))]), g.env.codec), io);
    case Err(reason) =>
      SayIsSafe(g, c, ToFrame(Failure(Denied(reason)), g.env.codec), io);
  }

  lemma AuthChangeIsSafe<S>(g: Gate<S>, c: Conn<S>, a: Action<S>)
    requires Safe(g, c) && ChangesAuth(a)
    ensures Safe(g, Note(c.(auth := if a.Authenticated? then Some(a.ctx) else None), a))
  {
    hide Justified, Backed;
    JustifiedOther(g, c.log, a);
    JustifiedGrows(g, c.log, a);
    if a.Authenticated? {
      AuthIsBacked(c.log, a.ctx);
    }
  }

  lemma OpenIsSafe<S>(g: Gate<S>, c: Conn<S>, cmd: Command, at: Option<nat>, io: Io)
    requires Safe(g, c) && cmd.Subscribe? && g.authRequired
    requires c.auth.Some? ==> at.Some? && !g.expired(c.auth.value, at.value)
    ensures Safe(g, Open(g, c, cmd, at, io))
  {
    hide Justified, Backed, ToFrame, EventFilter;
    var codec := g.env.codec;
    var begun := Note(c, Subscribed(cmd.ns, c.auth, at));
    var refused := if c.auth.Some? then g.env.check(c.auth.value, RequirementOf(cmd)) else None;
    if refused.Some? {
      SayIsSafe(g, c, ToFrame(Failure(Denied(refused.value)), codec), io);
    } else if c.auth.None? {
      SayIsSafe(g, c, ToFrame(Failure(NotAuthenticated), codec), io);
    } else {
      match g.subscribe(c.shared.store, cmd.ns, cmd.keyFilter, EventFilter(cmd.events))
      case Some(problem) =>
        SayIsSafe(g, c, ToFrame(Failure(Store(problem)), codec), io);
      case None =>
        WorkIsSafe(g, c, Subscribed(cmd.ns, c.auth, at));
        SayIsSafe(g, begun, ToFrame(Success(OK_FIELDS + [("namespace", VString(cmd.ns))]), codec), io);
    }
  }

  lemma HandleIsSafe<S>(g: Gate<S>, c: Conn<S>, cmd: Command, at: Option<nat>, io: Io)
    requires Safe(g, c)
    requires cmd.Ping? || Covered(g, c.log, c.auth, at)
    ensures Safe(g, Handle(g, c, cmd, at, io))
  {
    hide Justified, Backed, ToFrame, Execute;
    var (shared, response) := Execute(g.env, cmd, c.auth, c.shared);
    var done := c.(shared := shared);
    WorkIsSafe(g, done, Dispatched(cmd, c.auth, at, c.shared));
    SayIsSafe(g, Note(done, Dispatched(cmd, c.auth, at, c.shared)), ToFrame(response, g.env.codec), io);
  }

  lemma ProcessIsSafe<S>(g: Gate<S>, c: Conn<S>, cmd: Command, wall: Option<nat>, io: Io)
    requires Safe(g, c) && g.authRequired
    ensures Safe(g, Process(g, c, cmd, wall, io))
  {
    hide Justified, Backed, ToFrame, Authenticate, Open, Handle;
    var codec := g.env.codec;
    if cmd.Auth? {
      AuthenticateIsSafe(g, c, cmd.token, io);
    } else if c.auth.None? && !cmd.Ping? {
      SayIsSafe(g, c, ToFrame(Failure(NotAuthenticated), codec), io);
    } else if c.auth.Some? && wall.None? {
      SayIsSafe(g, c, ToFrame(Failure(CLOCK_FAILED), codec), io);
    } else if c.auth.Some? && g.expired(c.auth.value, wall.value) {
      AuthChangeIsSafe(g, c, Expired);
      SayIsSafe(g, Note(c.(auth := None), Expired), ToFrame(Failure(NotAuthenticated), codec), io);
    } else {
      var at := if c.auth.Some? then wall else None;
      if cmd.Subscribe? {
        OpenIsSafe(g, c, cmd, at, io);
      } else {
        HandleIsSafe(g, c, cmd, at, io);
      }
    }
  }

  lemma StepIsSafe<S>(g: Gate<S>, c: Conn<S>, i: Input<S>)
    requires Safe(g, c) && g.authRequired
    ensures Safe(g, Step(g, c, i))
  {
    hide Justified, Backed, ToFrame, Process, ParseCommand, ErrorText, PushFrame, Throttle;
    if c.mode.Normal? && i.Incoming? {
      match ParseCommand(i.frame, g.env.codec)
      case Err(e) => SayIsSafe(g, c, SimpleError(ERR + ErrorText(e)), i.io);
      case Ok(cmd) =>
        var (bucket, ok) := Throttle(c.bucket, i.instant);
        ProcessIsSafe(g, c.(bucket := bucket), cmd, i.wall, i.io);
        SayIsSafe(g, c.(bucket := bucket), ToFrame(Failure(RATE_LIMITED), g.env.codec), i.io);
    } else if c.mode.Normal? && i.Malformed? {
      SayIsSafe(g, c, SimpleError(ERR_PROTOCOL + g.faultText(i.error)), i.io);
    } else if c.mode.Streaming? && i.Incoming? {
      SayIsSafe(g, c, ToFrame(Success(OK_FIELDS), g.env.codec), i.io);
      SayIsSafe(g, c, ToFrame(Success(PONG), g.env.codec), i.io);
      SayIsSafe(g, c, SimpleError(ONLY_UNSUBSCRIBE), i.io);
    } else if c.mode.Streaming? && i.Happened? {
      SayIsSafe(g, c, PushFrame(i.event), i.io);
    } else if c.mode.Streaming? && i.Ended? {
      SayIsSafe(g, c, SUBSCRIPTION_CLOSED, i.io);
    }
  }

  lemma {:induction false} RunIsSafe<S>(g: Gate<S>, c: Conn<S>, inputs: seq<Input<S>>)
    requires Safe(g, c) && g.authRequired
    ensures Safe(g, Run(g, c, inputs))
    decreases |inputs|
  {
    hide Safe, Step;
    if inputs != [] {
      StepIsSafe(g, c, inputs[0]);
      RunIsSafe(g, Step(g, c, inputs[0]), inputs[1..]);
    }
  }

  /**
    Connection safety: with authentication required, whatever arrives in whatever order, every dispatched
    command but PING and every subscription follows a successful AUTH that nothing has replaced or
    expired since, whose context was unexpired when checked; a subscription was also permitted.
   */
  lemma ConnectionSafety<S>(g: Gate<S>, limit: Option<nat>, now: real, shared: State<S>, inputs: seq<Input<S>>, i: nat)
    requires g.authRequired
    requires i < |Run(g, Opened(g, limit, now, shared), inputs).log|
    ensures Justified(g, Run(g, Opened(g, limit, now, shared), inputs).log, i)
  {
    hide Run, Justified, Backed;
    RunIsSafe(g, Opened(g, limit, now, shared), inputs);
  }

  /** After a detected expiry nothing but PING is dispatched, and nothing subscribed to, until another AUTH succeeds. */
  lemma ExpiryNeedsNewAuth<S>(g: Gate<S>, limit: Option<nat>, now: real, shared: State<S>, inputs: seq<Input<S>>,
                              e: nat, i: nat)
    requires g.authRequired
    requires var log := Run(g, Opened(g, limit, now, shared), inputs).log;
             && e < i < |log| && log[e].Expired?
             && (log[i].Subscribed? || (log[i].Dispatched? && !log[i].command.Ping?))
    ensures var log := Run(g, Opened(g, limit, now, shared), inputs).log;
            exists j :: e < j < i && log[j].Authenticated?
  {
    hide Run;
    var log := Run(g, Opened(g, limit, now, shared), inputs).log;
    ConnectionSafety(g, limit, now, shared, inputs, i);
    var j :| 0 <= j < i && Backs(log[..i], j, log[i].auth.value);
    assert log[..i][e] == log[e] && log[..i][j] == log[j];
    assert ChangesAuth(log[..i][e]);
  }

  /**
    Down to the handlers: whatever pipelines the client sends, a command other than PING reaches a handler
    through this connection only under a context that an AUTH on this connection granted and that was
    unexpired; and a command that reads a namespace, writes to it or administers reaches it only if the access
    check lets that context read that namespace, write to it or administer.
   */
  lemma HandlersAreGuarded<S>(g: Gate<S>, limit: Option<nat>, now: real, shared: State<S>, inputs: seq<Input<S>>,
                              i: nat, k: nat)
    requires g.authRequired
    requires var log := Run(g, Opened(g, limit, now, shared), inputs).log;
             && i < |log| && log[i].Dispatched?
             && |log[i].before.trace| <= k < |Execute(g.env, log[i].command, log[i].auth, log[i].before).0.trace|
    ensures var log := Run(g, Opened(g, limit, now, shared), inputs).log;
            var a := log[i];
            var handled := Execute(g.env, a.command, a.auth, a.before).0.trace[k];
            (handled.Ping? || Covered(g, log[..i], a.auth, a.at)) && Allowed(g.env.check, handled, a.auth)
  {
    hide Run, Execute, Backed, Allowed;
    var log := Run(g, Opened(g, limit, now, shared), inputs).log;
    var a := log[i];
    ConnectionSafety(g, limit, now, shared, inputs, i);
    OnlyAllowedReachHandlers(g.env, a.command, a.auth, a.before);
    if a.command.Ping? {
      PingHandlesPing(g.env, a.auth, a.before);
    }
  }

  lemma PingHandlesPing<S>(env: Env<S>, auth: Option<AuthContext>, st: State<S>)
    ensures Execute(env, Ping, auth, st).0.trace == st.trace + [Ping]
  {
  }
}
