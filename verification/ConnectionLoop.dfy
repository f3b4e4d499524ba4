/** The two loops of a connection, as they run: each input moves the connection as the state machine says. */
module ConnectionLoop {
  import opened Text
  import opened Frames
  import opened Commands
  import opened CommandParser
  import opened CommandParserLoops
  import opened Replies
  import opened Dispatcher
  import opened RateLimiter
  import opened PushEvents
  import opened ServerIO
  import opened Connection
  import opened ConnectionTraffic
  import ClientIO

  class ClientConnection<S> {
    const gate: Gate<S>
    const dispatcher: CommandDispatcher<S>
    const limiter: Limiter?
    const writer: Sink
    var pending: seq<Input<S>>
    var auth: Option<AuthContext>
    ghost var mode: Mode
    ghost var log: seq<Action<S>>

    ghost function Value(): Conn<S>
      reads this, dispatcher, dispatcher.idempotency, limiter
    {
      Conn(mode, auth, if limiter == null then None else Some(limiter.Value()), dispatcher.Snapshot(), log)
    }

    /** The dispatcher is the gate's, and the bytes written are those of the frames logged as sent. */
    ghost predicate Valid()
      reads this, writer
    {
      dispatcher.env == gate.env && writer.out == EncodeItems(Outputs(log))
    }

    constructor (gate: Gate<S>, dispatcher: CommandDispatcher<S>, limit: Option<nat>, now: real, inputs: seq<Input<S>>)
      requires dispatcher.env == gate.env
      ensures Valid() && this.gate == gate && this.dispatcher == dispatcher && pending == inputs
      ensures fresh(writer) && (limiter != null ==> fresh(limiter))
      ensures Value() == Opened(gate, limit, now, dispatcher.Snapshot())
    {
      this.gate := gate;
      this.dispatcher := dispatcher;
      if limit.Some? {
        limiter := new Limiter(limit.value, now);
      } else {
        limiter := null;
      }
      writer := new Sink();
      pending := inputs;
      auth := if gate.authRequired then None else Some(gate.anonymous);
      mode := Normal;
      log := [];
    }

    /** A frame is written, unless the client can no longer be written to. */
    method Write(f: Frame, io: Io)
      requires Valid()
      modifies this`log, writer
      ensures Valid() && Value() == Say(old(Value()), f, io)
    {
      hide Encode, EncodeItems, Outputs;
      OutputsConcat(log, [Fate(f, io)]);
      SingleOutput(f, io, Value());
      assert Outputs(log) + [] == Outputs(log);
      if io.write {
        WriteFrame(writer, f);
        SentIsAppended(Outputs(log), f);
      }
      log := log + [Fate(f, io)];
    }

    method Respond(r: CommandResponse, io: Io)
      requires Valid()
      modifies this`log, writer
      ensures Valid() && Value() == Reply(gate, old(Value()), r, io)
    {
      hide ToFrame;
      Write(ToFrame(r, gate.env.codec), io);
    }

    method Login(token: Bytes, io: Io)
      requires Valid()
      modifies this`log, this`auth, writer
      ensures Valid() && Value() == Authenticate(gate, old(Value()), token, io)
    {
      hide Reply, Outputs;
      match gate.validate(token)
      case Ok(ctx) =>
        auth := Some(ctx);
        Record(Authenticated(ctx));
        Respond(Success(OK_FIELDS + [("actor", VString(ctx.actor))]), io);
      case Err(reason) =>
        Respond(Failure(Denied(reason)), io);
    }

    /** An entry in the log that is not a frame. */
    ghost method Record(a: Action<S>)
      requires Valid() && !IsAnswer(a)
      modifies this`log
      ensures Valid() && Value() == Note(old(Value()), a)
    {
      OutputsConcat(log, [a]);
      NoOutput(a);
      assert Outputs(log) + [] == Outputs(log);
      log := log + [a];
    }

    method OpenSubscription(cmd: Command, ghost at: Option<nat>, io: Io) returns (streaming: bool)
      requires Valid() && cmd.Subscribe?
      modifies this`log, this`mode, writer
      ensures Valid() && Value() == Open(gate, old(Value()), cmd, at, io)
      ensures mode == if streaming then Streaming else old(mode)
    {
      hide Reply, RequirementOf, EventFilter, Outputs;
      if auth.Some? {
        var refused := gate.env.check(auth.value, RequirementOf(cmd));
        if refused.Some? {
          Respond(Failure(Denied(refused.value)), io);
          return false;
        }
      } else if gate.authRequired {
        Respond(Failure(NotAuthenticated), io);
        return false;
      }
      var problem := gate.subscribe(dispatcher.store, cmd.ns, cmd.keyFilter, EventFilter(cmd.events));
      if problem.Some? {
        Respond(Failure(Store(problem.value)), io);
        return false;
      }
      Record(Subscribed(cmd.ns, auth, at));
      Respond(Success(OK_FIELDS + [("namespace", VString(cmd.ns))]), io);
      mode := Streaming;
      return true;
    }

    /** Says whether the connection goes on. */
    method Dispatch(cmd: Command, ghost at: Option<nat>, io: Io) returns (flushed: bool)
      requires Valid()
      modifies this`log, this`mode, writer, dispatcher, dispatcher.idempotency
      ensures Valid() && Value() == Handle(gate, old(Value()), cmd, at, io) && flushed == io.flush
    {
      hide Reply, Execute, Outputs;
      ghost var before := dispatcher.Snapshot();
      var response := dispatcher.Run(cmd, auth);
      Record(Dispatched(cmd, auth, at, before));
      Respond(response, io);
      if !io.flush {
        mode := Closed;
      }
      return io.flush;
    }

    /** A command that got past authentication; says how the loop goes on. */
    method PerformCommand(cmd: Command, ghost at: Option<nat>, io: Io) returns (next: Mode)
      requires Valid() && mode.Normal?
      modifies this`log, this`mode, writer, dispatcher, dispatcher.idempotency
      ensures Valid() && Value() == Perform(gate, old(Value()), cmd, at, io) && next == mode
    {
      hide Valid, Open, Handle;
      if cmd.Subscribe? {
        var streaming := OpenSubscription(cmd, at, io);
        return if streaming then Streaming else Normal;
      }
      var flushed := Dispatch(cmd, at, io);
      HandleKeepsMode(gate, old(Value()), cmd, at, io);
      return if flushed then Normal else Closed;
    }

    /** Everything after the limiter; says how the loop goes on. */
    method ProcessCommand(cmd: Command, wall: Option<nat>, io: Io) returns (next: Mode)
      requires Valid() && mode.Normal?
      modifies this`log, this`auth, this`mode, writer, dispatcher, dispatcher.idempotency
      ensures Valid() && Value() == Process(gate, old(Value()), cmd, wall, io) && next == mode
    {
      hide Reply, Valid, Perform, Authenticate;
      if cmd.Auth? {
        Login(cmd.token, io);
        AuthenticateKeepsMode(gate, old(Value()), cmd.token, io);
        return Normal;
      }
      if gate.authRequired && auth.None? && !cmd.Ping? {
        Respond(Failure(NotAuthenticated), io);
        return Normal;
      }
      if auth.Some? {
        if wall.None? {
          Respond(Failure(CLOCK_FAILED), io);
          Close();
          return Closed;
        }
        if gate.expired(auth.value, wall.value) {
          Expire();
          Respond(Failure(NotAuthenticated), io);
          return Normal;
        }
      }
      next := PerformCommand(cmd, if auth.Some? then wall else None, io);
    }

    method Expire()
      requires Valid()
      modifies this`log, this`auth
      ensures Valid() && Value() == Note(old(Value()).(auth := None), Expired)
    {
      hide Outputs, EncodeItems;
      auth := None;
      Record(Expired);
    }

    /** The command loop ends. */
    ghost method Close()
      requires Valid()
      modifies this`mode
      ensures Valid() && Value() == old(Value()).(mode := Closed)
    {
      hide Outputs, EncodeItems;
      mode := Closed;
    }

    method ReceiveFrame(f: Frame, instant: real, wall: Option<nat>, io: Io) returns (next: Mode)
      requires Valid() && mode.Normal?
      modifies this`log, this`auth, this`mode, writer, limiter, dispatcher, dispatcher.idempotency
      ensures Valid() && Value() == Receive(gate, old(Value()), f, instant, wall, io) && next == mode
    {
      hide Valid, Reply, Process, ParseCommand, ErrorText, Acquire;
      var parsed := ParseOne(f, gate.env.codec);
      if parsed.Err? {
        Write(SimpleError(ERR + ErrorText(parsed.error)), io);
        return Normal;
      }
      if limiter != null {
        var ok := limiter.TryAcquire(instant);
        if !ok {
          Respond(Failure(RATE_LIMITED), io);
          return Normal;
        }
      }
      next := ProcessCommand(parsed.value, wall, io);
    }

    /** Other connections have used the dispatcher in the meantime. */
    method Absorb(shared: State<S>)
      requires Valid()
      modifies dispatcher, dispatcher.idempotency
      ensures Valid() && Value() == old(Value()).(shared := shared)
    {
      dispatcher.store := shared.store;
      dispatcher.ticks := shared.ticks;
      dispatcher.trace := shared.trace;
      dispatcher.answers := shared.answers;
      dispatcher.idempotency.entries := shared.cache;
    }

    /** The frame of a client that is subscribed; says whether it unsubscribed. */
    method ReceiveWhileStreaming(f: Frame, io: Io) returns (left: bool)
      requires Valid() && mode.Streaming?
      modifies this`log, this`mode, writer
      ensures Valid() && Value() == ReceiveStreaming(gate, old(Value()), f, io)
      ensures mode == if left then Normal else Streaming
    {
      hide Reply, Outputs, ParseCommand;
      var parsed := ParseOne(f, gate.env.codec);
      left := false;
      if parsed.Ok? {
        if parsed.value.Unsubscribe? {
          Respond(Success(OK_FIELDS), io);
          mode := Normal;
          left := true;
        } else if parsed.value.Ping? {
          Respond(Success(PONG), io);
        } else {
          Write(SimpleError(ONLY_UNSUBSCRIBE), io);
        }
      }
    }

    /** `handle_subscription`: true when the client left cleanly and the command loop goes on. */
    method HandleSubscription() returns (clean: bool)
      requires Valid() && mode.Streaming?
      modifies this`pending, this`log, this`mode, writer, dispatcher, dispatcher.idempotency
      ensures Valid() && |pending| <= |old(pending)|
      ensures Run(gate, Value(), pending) == Run(gate, old(Value()), old(pending))
      ensures if clean then mode.Normal? else mode.Closed? || pending == []
    {
      hide Reply, Outputs, ReceiveStreaming, PushFrame, StepNormal;
      ghost var goal := Run(gate, Value(), pending);
      while pending != []
        invariant Valid() && mode.Streaming? && |pending| <= |old(pending)|
        invariant Run(gate, Value(), pending) == goal
        decreases |pending|
      {
        var input := pending[0];
        pending := pending[1..];
        match input
        case Shutdown(on) =>
          if on {
            mode := Closed;
            return false;
          }
        case Happened(event, io) =>
          Write(PushFrame(event), io);
          if !io.write || !io.flush {
            mode := Closed;
            return false;
          }
        case Ended(io) =>
          Write(SUBSCRIPTION_CLOSED, io);
          mode := Normal;
          return true;
        case Incoming(f, _, _, io) =>
          var left := ReceiveWhileStreaming(f, io);
          if left {
            return true;
          }
        case EndOfInput =>
          mode := Closed;
          return false;
        case Malformed(_, _) =>
          mode := Closed;
          return false;
        case Elsewhere(shared) =>
          Absorb(shared);
      }
      return false;
    }

    /** `handle_connection`: the loop over everything that arrives is a run of the state machine. */
    method HandleConnection()
      requires Valid() && mode.Normal?
      modifies this, writer, limiter, dispatcher, dispatcher.idempotency
      ensures Valid() && Value() == Run(gate, old(Value()), old(pending))
    {
      hide Reply, Outputs, Receive, StepStreaming;
      ghost var goal := Run(gate, Value(), pending);
      while pending != []
        invariant Valid() && mode.Normal?
        invariant Run(gate, Value(), pending) == goal
        decreases |pending|
      {
        var input := pending[0];
        pending := pending[1..];
        match input
        case Shutdown(on) =>
          if on {
            mode := Closed;
            break;
          }
        case EndOfInput =>
          mode := Closed;
          break;
        case Malformed(e, io) =>
          Write(SimpleError(ERR_PROTOCOL + gate.faultText(e)), io);
          mode := Closed;
          break;
        case Incoming(f, instant, wall, io) =>
          var next := ReceiveFrame(f, instant, wall, io);
          if next.Closed? || !io.write {
            mode := Closed;
            break;
          }
          if next.Streaming? {
            var clean := HandleSubscription();
            if !clean {
              break;
            }
          }
        case Happened(_, _) =>
        case Ended(_) =>
        case Elsewhere(shared) =>
          Absorb(shared);
      }
      if mode.Closed? {
        ClosedStays(gate, Value(), pending);
      }
    }
  }

  lemma AuthenticateKeepsMode<S>(g: Gate<S>, c: Conn<S>, token: Bytes, io: Io)
    ensures Authenticate(g, c, token, io).mode == c.mode
  {
    hide ToFrame;
  }

  lemma HandleKeepsMode<S>(g: Gate<S>, c: Conn<S>, cmd: Command, at: Option<nat>, io: Io)
    ensures Handle(g, c, cmd, at, io).mode == if io.flush then c.mode else Closed
  {
    hide ToFrame, Execute;
  }

  lemma SentIsAppended(frames: seq<Frame>, f: Frame)
    ensures EncodeItems(frames + [f]) == EncodeItems(frames) + Encode(f)
  {
    hide Encode, EncodeItems;
    ClientIO.EncodeItemsConcat(frames, [f]);
    ClientIO.OneItem(f);
  }

  lemma NoOutput<S>(a: Action<S>)
    requires !a.Sent?
    ensures Outputs([a]) == []
  {
  }
}
