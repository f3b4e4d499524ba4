/**
  One client connection as a state machine: authentication, expiry, throttling, normal and streaming
  mode. Whole frames, subscription events, signals and the work of other connections are its inputs.
 */
module Connection {
  import opened Text
  import opened Frames
  import opened Commands
  import opened CommandParser
  import opened Requests
  import opened Replies
  import opened Dispatcher
  import opened RateLimiter
  import opened PushEvents
  import ServerReader

  /** What a connection is given: the dispatcher's environment, the token validator and the store's subscriptions. */
  datatype Gate<!S> = Gate(
    env: Env<S>,
    authRequired: bool,
    validate: Bytes -> Result<AuthContext, Bytes>,
    expired: (AuthContext, nat) -> bool,
    subscribe: (S, Bytes, Option<Bytes>, seq<EventType>) -> Option<Bytes>,
    anonymous: AuthContext,
    faultText: ServerReader.ReadError -> Bytes)

  datatype Mode = Normal | Streaming | Closed

  /**
    What a connection did. A dispatched command and a subscription carry the context they ran under and
    the clock reading the context was checked against. A frame is lost when it cannot be written.
   */
  datatype Action<+S> =
    | Authenticated(ctx: AuthContext)
    | Expired
    | Dispatched(command: Command, auth: Option<AuthContext>, at: Option<nat>, before: State<S>)
    | Subscribed(ns: Bytes, auth: Option<AuthContext>, at: Option<nat>)
    | Sent(frame: Frame)
    | Lost(frame: Frame)

  datatype Conn<+S> = Conn(mode: Mode, auth: Option<AuthContext>, bucket: Option<Bucket>, shared: State<S>,
      log: seq<Action<S>>)

  /** Whether a frame can be written to the client, and whether it can then be flushed. */
  datatype Io = Io(write: bool, flush: bool)

  /**
    A frame comes with the instant the limiter sees and the wall clock, which may fail. Whatever is
    answered comes with the fate of the answer. Other connections may leave the shared dispatcher in
    any state.
   */
  datatype Input<+S> =
    | Incoming(frame: Frame, instant: real, wall: Option<nat>, io: Io)
    | EndOfInput
    | Malformed(error: ServerReader.ReadError, io: Io)
    | Shutdown(on: bool)
    | Happened(event: SubscriptionEvent, io: Io)
    | Ended(io: Io)
    | Elsewhere(shared: State<S>)

  const ONLY_UNSUBSCRIBE: Bytes := "ERR only UNSUBSCRIBE and " + "PING allowed during " + "subscription"
  const ERR: Bytes := "ERR "
  const ERR_PROTOCOL: Bytes := "ERR protocol: "
  const RATE_LIMITED: CommandError := Denied("rate limit exceeded")
  const CLOCK_FAILED: CommandError := Internal("system clock error")
  const SUBSCRIPTION_CLOSED: Frame := Push([SimpleString("subscription"), SimpleString("closed")])
  const PONG: Fields := OK_FIELDS + [("message", VString("PONG"))]

  function Opened<S>(g: Gate<S>, limit: Option<nat>, now: real, shared: State<S>): Conn<S> {
    Conn(Normal, if g.authRequired then None else Some(g.anonymous),
         if limit.Some? then Some(NewBucket(limit.value, now)) else None, shared, [])
  }

  /** What becomes of a frame that is to be written. */
  function Fate<S>(f: Frame, io: Io): Action<S> {
    if io.write then Sent(f) else Lost(f)
  }

  function Say<S>(c: Conn<S>, f: Frame, io: Io): Conn<S> {
    c.(log := c.log + [Fate(f, io)])
  }

  function Reply<S>(g: Gate<S>, c: Conn<S>, r: CommandResponse, io: Io): Conn<S> {
    Say(c, ToFrame(r, g.env.codec), io)
  }

  function Note<S>(c: Conn<S>, a: Action<S>): Conn<S> {
    c.(log := c.log + [a])
  }

  function ClosedUnless<S>(ok: bool, c: Conn<S>): Conn<S> {
    if ok then c else c.(mode := Closed)
  }

  // ---- Normal mode ----

  function Authenticate<S>(g: Gate<S>, c: Conn<S>, token: Bytes, io: Io): Conn<S> {
    match g.validate(token)
    case Ok(ctx) =>
      Reply(g, Note(c.(auth := Some(ctx)), Authenticated(ctx)), Success(OK_FIELDS + [("actor", VString(ctx.actor))]),
          io)
    case Err(reason) => Reply(g, c, Failure(Denied(reason)), io)
  }

  /** A SUBSCRIBE that got past authentication; `at` is the clock reading that was used. */
  function Open<S>(g: Gate<S>, c: Conn<S>, cmd: Command, at: Option<nat>, io: Io): Conn<S>
    requires cmd.Subscribe?
  {
    var refused := if c.auth.Some? then g.env.check(c.auth.value, RequirementOf(cmd)) else None;
    if refused.Some? then Reply(g, c, Failure(Denied(refused.value)), io)
    else if c.auth.None? && g.authRequired then Reply(g, c, Failure(NotAuthenticated), io)
    else
      match g.subscribe(c.shared.store, cmd.ns, cmd.keyFilter, EventFilter(cmd.events))
      case Some(problem) => Reply(g, c, Failure(Store(problem)), io)
      case None =>
        Reply(g, Note(c, Subscribed(cmd.ns, c.auth, at)), Success(OK_FIELDS + [("namespace", VString(cmd.ns))]),
            io).(mode := Streaming)
  }

  /** Dispatch; the only reply whose flush is checked. */
  function Handle<S>(g: Gate<S>, c: Conn<S>, cmd: Command, at: Option<nat>, io: Io): Conn<S> {
    var (shared, response) := Execute(g.env, cmd, c.auth, c.shared);
    ClosedUnless(io.flush, Reply(g, Note(c.(shared := shared), Dispatched(cmd, c.auth, at, c.shared)), response, io))
  }

  /** A command that got past authentication. */
  function Perform<S>(g: Gate<S>, c: Conn<S>, cmd: Command, at: Option<nat>, io: Io): Conn<S> {
    if cmd.Subscribe? then Open(g, c, cmd, at, io) else Handle(g, c, cmd, at, io)
  }

  /** A command the limiter let through. */
  function Process<S>(g: Gate<S>, c: Conn<S>, cmd: Command, wall: Option<nat>, io: Io): Conn<S> {
    if cmd.Auth? then Authenticate(g, c, cmd.token, io)
    else if g.authRequired && c.auth.None? && !cmd.Ping? then Reply(g, c, Failure(NotAuthenticated), io)
    else if c.auth.Some? && wall.None? then Reply(g, c, Failure(CLOCK_FAILED), io).(mode := Closed)
    else if c.auth.Some? && g.expired(c.auth.value, wall.value) then
      Reply(g, Note(c.(auth := None), Expired), Failure(NotAuthenticated), io)
    else
      Perform(g, c, cmd, if c.auth.Some? then wall else None, io)
  }

  /** The limiter before a parsed command. */
  function Throttle(bucket: Option<Bucket>, instant: real): (Option<Bucket>, bool) {
    match bucket
    case None => (None, true)
    case Some(b) => var (b', ok) := Acquire(b, instant); (Some(b'), ok)
  }

  function Receive<S>(g: Gate<S>, c: Conn<S>, f: Frame, instant: real, wall: Option<nat>, io: Io): Conn<S> {
    match ParseCommand(f, g.env.codec)
    case Err(e) => Say(c, SimpleError(ERR + ErrorText(e)), io)
    case Ok(cmd) =>
      var (bucket, ok) := Throttle(c.bucket, instant);
      if ok then Process(g, c.(bucket := bucket), cmd, wall, io)
          else Reply(g, c.(bucket := bucket), Failure(RATE_LIMITED), io)
  }

  /** An answer that cannot be written ends the connection. */
  function StepNormal<S>(g: Gate<S>, c: Conn<S>, i: Input<S>): Conn<S> {
    match i
    case Incoming(f, instant, wall, io) => ClosedUnless(io.write, Receive(g, c, f, instant, wall, io))
    case EndOfInput => c.(mode := Closed)
    case Malformed(e, io) => Say(c, SimpleError(ERR_PROTOCOL + g.faultText(e)), io).(mode := Closed)
    case Shutdown(on) => if on then c.(mode := Closed) else c
    case Happened(_, _) => c
    case Ended(_) => c
    case Elsewhere(shared) => c.(shared := shared)
  }

  // ---- Streaming mode ----

  /** Whether these answers can be written is not checked. */
  function ReceiveStreaming<S>(g: Gate<S>, c: Conn<S>, f: Frame, io: Io): Conn<S> {
    match ParseCommand(f, g.env.codec)
    case Err(_) => c
    case Ok(cmd) =>
      if cmd.Unsubscribe? then Reply(g, c, Success(OK_FIELDS), io).(mode := Normal)
      else if cmd.Ping? then Reply(g, c, Success(PONG), io)
      else Say(c, SimpleError(ONLY_UNSUBSCRIBE), io)
  }

  function StepStreaming<S>(g: Gate<S>, c: Conn<S>, i: Input<S>): Conn<S> {
    match i
    case Incoming(f, _, _, io) => ReceiveStreaming(g, c, f, io)
    case EndOfInput => c.(mode := Closed)
    case Malformed(_, _) => c.(mode := Closed)
    case Shutdown(on) => if on then c.(mode := Closed) else c
    case Happened(e, io) => ClosedUnless(io.write && io.flush, Say(c, PushFrame(e), io))
    case Ended(io) => Say(c, SUBSCRIPTION_CLOSED, io).(mode := Normal)
    case Elsewhere(shared) => c.(shared := shared)
  }

  // ---- Runs ----

  function Step<S>(g: Gate<S>, c: Conn<S>, i: Input<S>): Conn<S> {
    match c.mode
    case Normal => StepNormal(g, c, i)
    case Streaming => StepStreaming(g, c, i)
    case Closed => c
  }

  function Run<S>(g: Gate<S>, c: Conn<S>, inputs: seq<Input<S>>): Conn<S>
    decreases |inputs|
  {
    if inputs == [] then c else Run(g, Step(g, c, inputs[0]), inputs[1..])
  }

  lemma {:induction false} ClosedStays<S>(g: Gate<S>, c: Conn<S>, inputs: seq<Input<S>>)
    requires c.mode.Closed?
    ensures Run(g, c, inputs) == c
    decreases |inputs|
  {
    if inputs != [] {
      ClosedStays(g, c, inputs[1..]);
    }
  }
}
