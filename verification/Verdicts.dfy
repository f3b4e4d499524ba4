/**
  What a connection answers, input by input, and what becomes of it. This is stated without following the
  connection's own steps: first who gets through, then what each input is answered with, text by text.
 */
module Verdicts {
  import opened Text
  import opened Frames
  import opened Commands
  import opened CommandParser
  import opened Replies
  import opened Dispatcher
  import opened PushEvents
  import opened Connection

  /** When a frame arrives: the limiter's instant, and the wall clock if it can be read. */
  datatype Moment = Moment(instant: real, wall: Option<nat>)

  // ---- Who gets through ----

  predicate Admits<S>(c: Conn<S>, at: Moment) {
    Throttle(c.bucket, at.instant).1
  }

  /** There is a context, or none is needed; and a context is unexpired by a clock that can be read. */
  predicate Cleared<S>(g: Gate<S>, c: Conn<S>, cmd: Command, at: Moment) {
    && (c.auth.None? ==> !g.authRequired || cmd.Ping?)
    && (c.auth.Some? ==> at.wall.Some? && !g.expired(c.auth.value, at.wall.value))
  }

  /** The command gets to the dispatcher. */
  predicate Reaches<S>(g: Gate<S>, c: Conn<S>, cmd: Command, at: Moment) {
    Admits(c, at) && !cmd.Auth? && !cmd.Subscribe? && Cleared(g, c, cmd, at)
  }

  /** The context may read the namespace and the store opens the subscription. */
  predicate Subscribes<S>(g: Gate<S>, c: Conn<S>, cmd: Command) {
    && cmd.Subscribe?
    && (c.auth.Some? ==> g.env.check(c.auth.value, Namespace(cmd.ns, Read)).None?)
    && g.subscribe(c.shared.store, cmd.ns, cmd.keyFilter, EventFilter(cmd.events)).None?
  }

  // ---- What a command is answered with ----

  function AuthVerdict<S>(g: Gate<S>, token: Bytes): CommandResponse {
    match g.validate(token)
    case Ok(ctx) => Success([("status", VString("OK")), ("actor", VString(ctx.actor))])
    case Err(reason) => Failure(Denied(reason))
  }

  function SubscribeVerdict<S>(g: Gate<S>, c: Conn<S>, cmd: Command): CommandResponse
    requires cmd.Subscribe?
  {
    if Subscribes(g, c, cmd) then Success([("status", VString("OK")), ("namespace", VString(cmd.ns))])
    else if c.auth.Some? && g.env.check(c.auth.value, Namespace(cmd.ns, Read)).Some? then
      Failure(Denied(g.env.check(c.auth.value, Namespace(cmd.ns, Read)).value))
    else
      match g.subscribe(c.shared.store, cmd.ns, cmd.keyFilter, EventFilter(cmd.events))
      case Some(problem) => Failure(Store(problem))
      case None => Failure(NotAuthenticated)
  }

  /** What the client is told. */
  function Verdict<S>(g: Gate<S>, c: Conn<S>, cmd: Command, at: Moment): CommandResponse {
    if !Admits(c, at) then Failure(Denied("rate limit exceeded"))
    else if cmd.Auth? then AuthVerdict(g, cmd.token)
    else if Cleared(g, c, cmd, at) then
      if cmd.Subscribe? then SubscribeVerdict(g, c, cmd) else Execute(g.env, cmd, c.auth, c.shared).1
    else if c.auth.Some? && at.wall.None? then Failure(Internal("system clock error"))
    else Failure(NotAuthenticated)
  }

  /** What a frame is answered with in normal mode: a complaint if it is no command, otherwise the verdict. */
  function AnswerTo<S>(g: Gate<S>, c: Conn<S>, f: Frame, at: Moment): Frame {
    match ParseCommand(f, g.env.codec)
    case Err(e) => SimpleError("ERR " + ErrorText(e))
    case Ok(cmd) => ToFrame(Verdict(g, c, cmd, at), g.env.codec)
  }

  // ---- What is written ----

  function Written(f: Frame, io: Io): seq<Frame> {
    if io.write then [f] else []
  }

  /** The reply to a command sent during a subscription. */
  function StreamingReply<S>(g: Gate<S>, cmd: Command): Frame {
    if cmd.Unsubscribe? then ToFrame(Success([("status", VString("OK"))]), g.env.codec)
    else if cmd.Ping? then ToFrame(Success([("status", VString("OK")), ("message", VString("PONG"))]), g.env.codec)
    else SimpleError("ERR only UNSUBSCRIBE and " + "PING allowed during " + "subscription")
  }

  function StreamingDue<S>(g: Gate<S>, i: Input<S>): seq<Frame> {
    match i
    case Incoming(f, _, _, io) =>
      var parsed := ParseCommand(f, g.env.codec);
      if parsed.Ok? then Written(StreamingReply(g, parsed.value), io) else []
    case Happened(e, io) => Written(PushFrame(e), io)
    case Ended(io) => Written(Push([SimpleString("subscription"), SimpleString("closed")]), io)
    case _ => []
  }

  /** The frames that are written in answer to an input. */
  function Due<S>(g: Gate<S>, c: Conn<S>, i: Input<S>): seq<Frame> {
    match c.mode
    case Closed => []
    case Streaming => StreamingDue(g, i)
    case Normal =>
      match i
      case Incoming(f, instant, wall, io) => Written(AnswerTo(g, c, f, Moment(instant, wall)), io)
      case Malformed(e, io) => Written(SimpleError("ERR protocol: " + g.faultText(e)), io)
      case _ => []
  }

  // ---- What becomes of the connection ----

  /** What a command leaves of the connection, apart from its log. */
  ghost predicate Aftermath<S>(g: Gate<S>, c: Conn<S>, cmd: Command, at: Moment, io: Io, c': Conn<S>) {
    && c'.bucket == Throttle(c.bucket, at.instant).0
    && c'.shared == (if Reaches(g, c, cmd, at) then Execute(g.env, cmd, c.auth, c.shared).0 else c.shared)
    && c'.auth == (if !Admits(c, at) then c.auth
                   else if cmd.Auth? then (if g.validate(cmd.token).Ok? then Some(g.validate(cmd.token).value)
                       else c.auth)
                   else if c.auth.Some? && at.wall.Some? && g.expired(c.auth.value, at.wall.value) then None
                   else c.auth)
    && c'.mode == (if !io.write then Mode.Closed
                   else if !Admits(c, at) || cmd.Auth? then Normal
                   else if c.auth.Some? && at.wall.None? then Mode.Closed
                   else if cmd.Subscribe? && Cleared(g, c, cmd, at) && Subscribes(g, c, cmd) then Streaming
                   else if Reaches(g, c, cmd, at) && !io.flush then Mode.Closed
                   else Normal)
  }

  /** The last thing logged is the fate of this response. */
  ghost predicate EndsWith<S>(g: Gate<S>, c: Conn<S>, r: CommandResponse, io: Io) {
    c.log != [] && c.log[|c.log| - 1] == Fate(ToFrame(r, g.env.codec), io)
  }

  /** The command was handed to the dispatcher. */
  predicate Dispatches<S>(c: Conn<S>, c': Conn<S>) {
    exists k :: |c.log| <= k < |c'.log| && c'.log[k].Dispatched?
  }

  lemma AuthenticateDoes<S>(g: Gate<S>, c: Conn<S>, token: Bytes, io: Io)
    ensures var c' := Authenticate(g, c, token, io);
            && c' == c.(auth := if g.validate(token).Ok? then Some(g.validate(token).value) else c.auth, log := c'.log)
            && EndsWith(g, c', AuthVerdict(g, token), io) && !Dispatches(c, c')
  {
    hide ToFrame;
    if g.validate(token).Ok? {
      AfterStatus("actor", VString(g.validate(token).value.actor));
    }
  }

  lemma OpenDoes<S>(g: Gate<S>, c: Conn<S>, cmd: Command, at: Option<nat>, io: Io)
    requires cmd.Subscribe? && (c.auth.None? ==> !g.authRequired)
    ensures var c' := Open(g, c, cmd, at, io);
            && c' == c.(mode := if Subscribes(g, c, cmd) then Streaming else c.mode, log := c'.log)
            && EndsWith(g, c', SubscribeVerdict(g, c, cmd), io) && !Dispatches(c, c')
  {
    hide ToFrame, EventFilter;
    assert RequirementOf(cmd) == Namespace(cmd.ns, Read);
    AfterStatus("namespace", VString(cmd.ns));
  }

  lemma HandleDoes<S>(g: Gate<S>, c: Conn<S>, cmd: Command, at: Option<nat>, io: Io)
    ensures var c' := Handle(g, c, cmd, at, io);
            var (shared, response) := Execute(g.env, cmd, c.auth, c.shared);
            && c' == c.(shared := shared, mode := if io.flush then c.mode else Mode.Closed, log := c'.log)
            && EndsWith(g, c', response, io) && Dispatches(c, c')
  {
    hide ToFrame, Execute;
    assert Handle(g, c, cmd, at, io).log[|c.log|].Dispatched?;
  }

  lemma ReplyDoes<S>(g: Gate<S>, c: Conn<S>, r: CommandResponse, io: Io)
    ensures var c' := Reply(g, c, r, io); c' == c.(log := c'.log) && EndsWith(g, c', r, io) && !Dispatches(c, c')
  {
    hide ToFrame;
  }

  /** What a command that got past the limiter leaves, and the verdict on it. */
  ghost predicate Judged<S>(g: Gate<S>, c: Conn<S>, cmd: Command, at: Moment, io: Io, c': Conn<S>) {
    && Aftermath(g, c, cmd, at, Io(true, io.flush), c') && EndsWith(g, c', Verdict(g, c, cmd, at), io)
    && (Dispatches(c, c') <==> Reaches(g, c, cmd, at))
  }

  lemma ClearedIsJudged<S>(g: Gate<S>, c: Conn<S>, cmd: Command, at: Moment, io: Io)
    requires c.mode.Normal? && Admits(c, at) && !cmd.Auth? && Cleared(g, c, cmd, at)
    ensures Judged(g, c, cmd, at, io, Process(g, c.(bucket := Throttle(c.bucket, at.instant).0), cmd, at.wall, io))
  {
    hide Execute, Throttle, Open, Handle, EndsWith, Subscribes, SubscribeVerdict;
    var c1 := c.(bucket := Throttle(c.bucket, at.instant).0);
    var now := if c.auth.Some? then at.wall else None;
    assert Process(g, c1, cmd, at.wall, io) == Perform(g, c1, cmd, now, io);
    if cmd.Subscribe? {
      OpenDoes(g, c1, cmd, now, io);
      BucketIsApart(g, c, c1, cmd);
    } else {
      HandleDoes(g, c1, cmd, now, io);
    }
  }

  lemma ExpiredIsJudged<S>(g: Gate<S>, c: Conn<S>, cmd: Command, at: Moment, io: Io)
    requires c.mode.Normal? && Admits(c, at) && !cmd.Auth?
    requires c.auth.Some? && at.wall.Some? && g.expired(c.auth.value, at.wall.value)
    ensures Judged(g, c, cmd, at, io, Process(g, c.(bucket := Throttle(c.bucket, at.instant).0), cmd, at.wall, io))
  {
    hide Execute, Throttle, Reply, EndsWith, Subscribes, SubscribeVerdict;
    var c1 := c.(bucket := Throttle(c.bucket, at.instant).0);
    ReplyDoes(g, Note(c1.(auth := None), Expired), Failure(NotAuthenticated), io);
    ExpiryIsNoDispatch(g, c1, io);
  }

  lemma ProcessIsJudged<S>(g: Gate<S>, c: Conn<S>, cmd: Command, at: Moment, io: Io)
    requires c.mode.Normal? && Admits(c, at)
    ensures Judged(g, c, cmd, at, io, Process(g, c.(bucket := Throttle(c.bucket, at.instant).0), cmd, at.wall, io))
  {
    hide Execute, Throttle, Authenticate, Perform, Reply, EndsWith, Subscribes, SubscribeVerdict, AuthVerdict;
    var c1 := c.(bucket := Throttle(c.bucket, at.instant).0);
    var wall := at.wall;
    if cmd.Auth? {
      AuthenticateDoes(g, c1, cmd.token, io);
    } else if g.authRequired && c.auth.None? && !cmd.Ping? {
      ReplyDoes(g, c1, Failure(NotAuthenticated), io);
    } else if c.auth.Some? && wall.None? {
      ReplyDoes(g, c1, Failure(CLOCK_FAILED), io);
      ModeIsApart(g, Reply(g, c1, Failure(CLOCK_FAILED), io), Failure(CLOCK_FAILED), io);
    } else if c.auth.Some? && g.expired(c.auth.value, wall.value) {
      ExpiredIsJudged(g, c, cmd, at, io);
    } else {
      ClearedIsJudged(g, c, cmd, at, io);
    }
  }

  lemma ExpiryIsNoDispatch<S>(g: Gate<S>, c: Conn<S>, io: Io)
    ensures !Dispatches(c, Reply(g, Note(c.(auth := None), Expired), Failure(NotAuthenticated), io))
  {
    hide ToFrame;
  }

  lemma ModeIsApart<S>(g: Gate<S>, c: Conn<S>, r: CommandResponse, io: Io)
    ensures EndsWith(g, c, r, io) ==> EndsWith(g, c.(mode := Mode.Closed), r, io)
  {
    hide ToFrame;
  }

  lemma BucketIsApart<S>(g: Gate<S>, c: Conn<S>, c1: Conn<S>, cmd: Command)
    requires cmd.Subscribe? && c1 == c.(bucket := c1.bucket)
    ensures Subscribes(g, c1, cmd) == Subscribes(g, c, cmd)
            && SubscribeVerdict(g, c1, cmd) == SubscribeVerdict(g, c, cmd)
  {
    hide EventFilter;
  }

  lemma RefusedIsVerdict<S>(g: Gate<S>, c: Conn<S>, cmd: Command, at: Moment)
    requires !Admits(c, at)
    ensures Verdict(g, c, cmd, at) == Failure(RATE_LIMITED) && !Reaches(g, c, cmd, at)
  {
    hide Execute;
  }

  /** A command that arrives in normal mode: the answer, and what becomes of the connection. */
  lemma CommandIsJudged<S>(g: Gate<S>, c: Conn<S>, f: Frame, cmd: Command, at: Moment, io: Io)
    requires c.mode.Normal? && ParseCommand(f, g.env.codec) == Ok(cmd)
    ensures var c' := Step(g, c, Incoming(f, at.instant, at.wall, io));
            && Aftermath(g, c, cmd, at, io, c') && EndsWith(g, c', Verdict(g, c, cmd, at), io)
            && (Dispatches(c, c') <==> Reaches(g, c, cmd, at))
  {
    hide Execute, Process, ParseCommand, Verdict, Throttle, Cleared, Subscribes, ToFrame;
    var b := c.(bucket := Throttle(c.bucket, at.instant).0);
    if Admits(c, at) {
      ProcessIsJudged(g, c, cmd, at, io);
      ClosingIsApart(g, c, Process(g, b, cmd, at.wall, io), Verdict(g, c, cmd, at), io);
    } else {
      RefusedIsVerdict(g, c, cmd, at);
      ReplyDoes(g, b, Failure(RATE_LIMITED), io);
      ClosingIsApart(g, c, Reply(g, b, Failure(RATE_LIMITED), io), Failure(RATE_LIMITED), io);
    }
  }

  lemma ClosingIsApart<S>(g: Gate<S>, c: Conn<S>, c': Conn<S>, r: CommandResponse, io: Io)
    requires EndsWith(g, c', r, io)
    ensures var end := ClosedUnless(io.write, c');
            EndsWith(g, end, r, io) && (Dispatches(c, end) <==> Dispatches(c, c'))
            && end == c'.(mode := if io.write then c'.mode else Mode.Closed)
  {
    hide ToFrame;
  }

  /**
    A frame that is no command is answered by exactly one error frame with the parser's complaint; context,
    limiter and dispatcher are as before, and the connection goes on if that can be written.
   */
  lemma BadFrameIsTold<S>(g: Gate<S>, c: Conn<S>, f: Frame, at: Moment, io: Io)
    requires c.mode.Normal? && ParseCommand(f, g.env.codec).Err?
    ensures var e := ParseCommand(f, g.env.codec).error;
            Step(g, c, Incoming(f, at.instant, at.wall, io))
            == c.(log := c.log + [Fate(SimpleError("ERR " + ErrorText(e)), io)],
                  mode := if io.write then Normal else Mode.Closed)
  {
    hide ParseCommand, ErrorText;
  }

  /** Bytes that are no frame are answered by exactly one error frame, and the connection is closed. */
  lemma MalformedIsTold<S>(g: Gate<S>, c: Conn<S>, i: Input<S>)
    requires c.mode.Normal? && i.Malformed?
    ensures Step(g, c, i) == c.(log := c.log + [Fate(SimpleError("ERR protocol: " + g.faultText(i.error)), i.io)],
                                mode := Mode.Closed)
  {
  }

  // ---- When a connection ends ----

  /** A command whose answer cannot be flushed, or that comes under a context when no clock can be read. */
  predicate IsFatal<S>(g: Gate<S>, c: Conn<S>, cmd: Command, at: Moment, io: Io) {
    || (Reaches(g, c, cmd, at) && !io.flush)
    || (Admits(c, at) && !cmd.Auth? && c.auth.Some? && at.wall.None?)
  }

  /** The client or the server is going, bytes are no frame, or what is to be written cannot be. */
  predicate Ends<S>(g: Gate<S>, c: Conn<S>, i: Input<S>) {
    match i
    case EndOfInput => true
    case Malformed(_, _) => true
    case Shutdown(on) => on
    case Incoming(f, instant, wall, io) =>
      var parsed := ParseCommand(f, g.env.codec);
      && c.mode.Normal?
      && (!io.write || (parsed.Ok? && IsFatal(g, c, parsed.value, Moment(instant, wall), io)))
    case Happened(_, io) => c.mode.Streaming? && !(io.write && io.flush)
    case _ => false
  }

  /** A connection ends exactly then. */
  lemma EndsExactly<S>(g: Gate<S>, c: Conn<S>, i: Input<S>)
    requires !c.mode.Closed?
    ensures Step(g, c, i).mode.Closed? <==> Ends(g, c, i)
  {
    hide Receive, ReceiveStreaming, ParseCommand, PushFrame, Execute, Admits, Cleared, Subscribes, Verdict, EndsWith;
    hide Dispatches;
    if c.mode.Normal? && i.Incoming? {
      var at := Moment(i.instant, i.wall);
      match ParseCommand(i.frame, g.env.codec)
      case Err(_) => BadFrameIsTold(g, c, i.frame, at, i.io);
      case Ok(cmd) => CommandIsJudged(g, c, i.frame, cmd, at, i.io);
    } else if i.Incoming? {
      StreamingStays(g, c, i.frame, i.io);
    }
  }

  lemma StreamingStays<S>(g: Gate<S>, c: Conn<S>, f: Frame, io: Io)
    ensures ReceiveStreaming(g, c, f, io).mode in {c.mode, Normal}
  {
    hide ParseCommand, ToFrame;
  }

  // ---- New connections ----

  /**
    A new connection has no context if authentication is required, and then of the commands the limiter admits
    only PING gets to the dispatcher; otherwise it has the anonymous one, and while that has not expired every
    admitted command but AUTH and SUBSCRIBE does.
   */
  lemma NewConnection<S>(g: Gate<S>, limit: Option<nat>, now: real, shared: State<S>, cmd: Command, at: Moment)
    ensures var c := Opened(g, limit, now, shared);
            && c.mode.Normal? && c.log == [] && c.shared == shared
            && c.auth == (if g.authRequired then None else Some(g.anonymous))
            && (Reaches(g, c, cmd, at) <==>
                && Admits(c, at) && !cmd.Auth? && !cmd.Subscribe?
                && if g.authRequired then cmd.Ping? else at.wall.Some? && !g.expired(g.anonymous, at.wall.value))
  {
    hide Admits;
  }
}
