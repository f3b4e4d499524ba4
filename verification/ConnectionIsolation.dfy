/** What a connection cannot tell: nothing it writes depends on a namespace its contexts have no rights on. */
module ConnectionIsolation {
  import opened Text
  import opened Frames
  import opened Commands
  import opened CommandParser
  import opened Replies
  import opened Dispatcher
  import opened Isolation
  import opened PushEvents
  import opened Connection
  import opened Verdicts
  import opened ConnectionTraffic

  /** Subscribing to other namespaces does not depend on this one. */
  ghost predicate LocalFeeds<S(!new)>(g: Gate<S>, ns: Bytes, agree: Agreement<S>) {
    forall s, t, n, key, events :: agree(s, t) && n != ns ==>
      g.subscribe(s, n, key, events) == g.subscribe(t, n, key, events)
  }

  /** Authentication is required, and no token gives rights on the namespace. */
  ghost predicate ShutsOut<S>(g: Gate<S>, ns: Bytes) {
    && g.authRequired
    && forall token :: g.validate(token).Ok? ==> IsShutOut(g.env.check, Some(g.validate(token).value), ns)
  }

  /** The two connections differ at most in the namespace, and in what they have logged. */
  predicate ConnsAlike<S>(agree: Agreement<S>, c: Conn<S>, d: Conn<S>) {
    c.mode == d.mode && c.auth == d.auth && c.bucket == d.bucket && Alike(agree, c.shared, d.shared)
  }

  /** The same input, or other connections leaving states that differ at most in the namespace. */
  ghost predicate InputsAlike<S>(agree: Agreement<S>, i: Input<S>, j: Input<S>) {
    if i.Elsewhere? then j.Elsewhere? && Alike(agree, i.shared, j.shared) else i == j
  }

  lemma VerdictsAlike<S(!new)>(g: Gate<S>, ns: Bytes, agree: Agreement<S>, c: Conn<S>, d: Conn<S>, cmd: Command,
                               at: Moment)
    requires Local(g.env.backend, ns, agree) && LocalFeeds(g, ns, agree) && ShutsOut(g, ns)
    requires ConnsAlike(agree, c, d) && IsShutOut(g.env.check, c.auth, ns)
    ensures Verdict(g, c, cmd, at) == Verdict(g, d, cmd, at)
    ensures Reaches(g, c, cmd, at) <==> Reaches(g, d, cmd, at)
    ensures Verdicts.Cleared(g, c, cmd, at) ==> (Subscribes(g, c, cmd) <==> Subscribes(g, d, cmd))
    ensures Reaches(g, c, cmd, at) ==>
              Alike(agree, Execute(g.env, cmd, c.auth, c.shared).0, Execute(g.env, cmd, d.auth, d.shared).0)
  {
    hide Execute, Local, Alike, EventFilter, Throttle;
    assert agree(c.shared.store, d.shared.store) by {
      AlikeAgrees(agree, c.shared, d.shared);
    }
    ShutOutSeesNothing(g.env, cmd, c.auth, ns, agree, c.shared, d.shared);
    if cmd.Subscribe? && cmd.ns != ns {
      assert g.subscribe(c.shared.store, cmd.ns, cmd.keyFilter, EventFilter(cmd.events))
             == g.subscribe(d.shared.store, cmd.ns, cmd.keyFilter, EventFilter(cmd.events));
    }
  }

  lemma AlikeAgrees<S>(agree: Agreement<S>, st: State<S>, tt: State<S>)
    requires Alike(agree, st, tt)
    ensures agree(st.store, tt.store)
  {
  }

  /** A command leaves connections alike. */
  lemma CommandStaysAlike<S(!new)>(g: Gate<S>, ns: Bytes, agree: Agreement<S>, c: Conn<S>, d: Conn<S>, f: Frame,
                                   cmd: Command, at: Moment, io: Io)
    requires Local(g.env.backend, ns, agree) && LocalFeeds(g, ns, agree) && ShutsOut(g, ns)
    requires ConnsAlike(agree, c, d) && IsShutOut(g.env.check, c.auth, ns)
    requires c.mode.Normal? && ParseCommand(f, g.env.codec) == Ok(cmd)
    ensures var i := Incoming(f, at.instant, at.wall, io);
            ConnsAlike(agree, Step(g, c, i), Step(g, d, i)) && IsShutOut(g.env.check, Step(g, c, i).auth, ns)
  {
    hide Execute, Local, LocalFeeds, Alike, Verdict, Reaches, Subscribes, Step, EndsWith, Dispatches, Throttle;
    hide ParseCommand;
    VerdictsAlike(g, ns, agree, c, d, cmd, at);
    CommandIsJudged(g, c, f, cmd, at, io);
    CommandIsJudged(g, d, f, cmd, at, io);
  }

  /** Every input leaves connections alike, and the same frames are due to it. */
  lemma StepStaysAlike<S(!new)>(g: Gate<S>, ns: Bytes, agree: Agreement<S>, c: Conn<S>, d: Conn<S>, i: Input<S>,
                                j: Input<S>)
    requires Local(g.env.backend, ns, agree) && LocalFeeds(g, ns, agree) && ShutsOut(g, ns)
    requires ConnsAlike(agree, c, d) && IsShutOut(g.env.check, c.auth, ns) && InputsAlike(agree, i, j)
    ensures ConnsAlike(agree, Step(g, c, i), Step(g, d, j)) && IsShutOut(g.env.check, Step(g, c, i).auth, ns)
    ensures Due(g, c, i) == Due(g, d, j)
  {
    hide Local, LocalFeeds, ShutsOut, IsShutOut, Alike, Receive, ParseCommand, Verdict, ToFrame, PushFrame, ErrorText;
    if c.mode.Normal? && i.Incoming? {
      var at := Moment(i.instant, i.wall);
      match ParseCommand(i.frame, g.env.codec)
      case Err(_) =>
        BadFrameIsTold(g, c, i.frame, at, i.io);
        BadFrameIsTold(g, d, i.frame, at, i.io);
      case Ok(cmd) =>
        CommandStaysAlike(g, ns, agree, c, d, i.frame, cmd, at, i.io);
        VerdictsAlike(g, ns, agree, c, d, cmd, at);
    }
  }

  lemma {:induction false} RunStaysAlike<S(!new)>(g: Gate<S>, ns: Bytes, agree: Agreement<S>, c: Conn<S>, d: Conn<S>,
                                                  inputs: seq<Input<S>>, others: seq<Input<S>>)
    requires Local(g.env.backend, ns, agree) && LocalFeeds(g, ns, agree) && ShutsOut(g, ns)
    requires ConnsAlike(agree, c, d) && IsShutOut(g.env.check, c.auth, ns)
    requires |inputs| == |others| && forall k :: 0 <= k < |inputs| ==> InputsAlike(agree, inputs[k], others[k])
    ensures AllDue(g, c, inputs) == AllDue(g, d, others)
    decreases |inputs|
  {
    hide Local, LocalFeeds, ShutsOut, ConnsAlike, IsShutOut, InputsAlike, Step, Due;
    if inputs != [] {
      StepStaysAlike(g, ns, agree, c, d, inputs[0], others[0]);
      RunStaysAlike(g, ns, agree, Step(g, c, inputs[0]), Step(g, d, others[0]), inputs[1..], others[1..]);
    }
  }

  /**
    Non-interference of a whole connection: if no token gives rights on a namespace, then over servers whose
    stores differ only in that namespace a client that sends the same things at the same times is sent exactly
    the same frames, whatever it sends and whatever other connections do elsewhere.
   */
  lemma NoFrameTells<S(!new)>(g: Gate<S>, ns: Bytes, agree: Agreement<S>, limit: Option<nat>, now: real,
                              st: State<S>, tt: State<S>, inputs: seq<Input<S>>, others: seq<Input<S>>)
    requires Local(g.env.backend, ns, agree) && LocalFeeds(g, ns, agree) && ShutsOut(g, ns) && Alike(agree, st, tt)
    requires |inputs| == |others| && forall k :: 0 <= k < |inputs| ==> InputsAlike(agree, inputs[k], others[k])
    ensures Outputs(Run(g, Opened(g, limit, now, st), inputs).log)
            == Outputs(Run(g, Opened(g, limit, now, tt), others).log)
  {
    hide Local, LocalFeeds, Alike, Run, Outputs, InputsAlike, AllDue;
    var c, d := Opened(g, limit, now, st), Opened(g, limit, now, tt);
    RunStaysAlike(g, ns, agree, c, d, inputs, others);
    RunSendsWhatIsDue(g, c, inputs);
    RunSendsWhatIsDue(g, d, others);
  }
}
