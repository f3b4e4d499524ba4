/** Replies, dispatched work and streaming over whole runs of a connection. */
module ConnectionTraffic {
  import opened Text
  import opened Frames
  import opened Commands
  import opened CommandParser
  import opened Replies
  import opened Dispatcher
  import opened RateLimiter
  import opened PushEvents
  import opened Connection
  import opened Verdicts

  lemma {:induction false} RunSplit<S>(g: Gate<S>, c: Conn<S>, first: seq<Input<S>>, rest: seq<Input<S>>)
    ensures Run(g, c, first + rest) == Run(g, Run(g, c, first), rest)
    decreases |first|
  {
    hide Step;
    if first == [] {
      assert first + rest == rest;
    } else {
      assert (first + rest)[0] == first[0] && (first + rest)[1..] == first[1..] + rest;
      RunSplit(g, Step(g, c, first[0]), first[1..], rest);
    }
  }

  // ---- One frame, one reply ----

  /** What a step added to the log. */
  function Added<S>(c: Conn<S>, c': Conn<S>): seq<Action<S>>
    requires c.log <= c'.log
  {
    c'.log[|c.log|..]
  }

  /** A frame written or lost. */
  predicate IsAnswer<S>(a: Action<S>) {
    a.Sent? || a.Lost?
  }

  /**
    Exactly this frame was to be written, last, and was if it could be; a dispatched command ran in the
    state the connection saw, and the frame is its response; without one the shared state is untouched.
   */
  ghost predicate OneReply<S>(g: Gate<S>, c: Conn<S>, c': Conn<S>, f: Frame, io: Io) {
    && c.log <= c'.log
    && var d := Added(c, c');
       if |d| == 1 then d[0] == Fate(f, io) && c'.shared == c.shared
       else
         && |d| == 2 && !IsAnswer(d[0]) && d[1] == Fate(f, io)
         && if d[0].Dispatched? then
              && d[0].before == c.shared
              && var (shared, response) := Execute(g.env, d[0].command, d[0].auth, c.shared);
                 c'.shared == shared && f == ToFrame(response, g.env.codec)
            else c'.shared == c.shared
  }

  /** The last thing logged is the fate of this frame. */
  ghost predicate EndsIn<S>(c: Conn<S>, f: Frame, io: Io) {
    c.log != [] && c.log[|c.log| - 1] == Fate(f, io)
  }

  lemma SayIsOneReply<S>(g: Gate<S>, c: Conn<S>, c': Conn<S>, f: Frame, io: Io)
    requires c'.log == c.log + [Fate(f, io)] && c'.shared == c.shared
    ensures OneReply(g, c, c', f, io)
  {
    hide Execute;
    assert Added(c, c') == [Fate(f, io)];
  }

  lemma NoteAndSay<S>(g: Gate<S>, c: Conn<S>, c': Conn<S>, a: Action<S>, f: Frame, io: Io)
    requires c'.log == c.log + [a] + [Fate(f, io)] && c'.shared == c.shared && !IsAnswer(a) && !a.Dispatched?
    ensures OneReply(g, c, c', f, io)
  {
    hide Execute;
    assert Added(c, c') == [a, Fate(f, io)];
  }

  lemma HandleIsOneReply<S>(g: Gate<S>, c: Conn<S>, cmd: Command, at: Option<nat>, io: Io)
    ensures var response := Execute(g.env, cmd, c.auth, c.shared).1;
            OneReply(g, c, Handle(g, c, cmd, at, io), ToFrame(response, g.env.codec), io)
  {
    hide Execute, ToFrame;
    var c' := Handle(g, c, cmd, at, io);
    var response := Execute(g.env, cmd, c.auth, c.shared).1;
    var answer: Action<S> := Fate(ToFrame(response, g.env.codec), io);
    assert c'.log == c.log + [Dispatched(cmd, c.auth, at, c.shared)] + [answer];
    assert Added(c, c') == [Dispatched(cmd, c.auth, at, c.shared), answer];
  }

  lemma ProcessIsOneReply<S>(g: Gate<S>, c: Conn<S>, cmd: Command, wall: Option<nat>, f: Frame, io: Io)
    requires EndsIn(Process(g, c, cmd, wall, io), f, io)
    ensures OneReply(g, c, Process(g, c, cmd, wall, io), f, io)
  {
    hide Execute, ToFrame, Handle, OneReply, RequirementOf, EventFilter;
    var c' := Process(g, c, cmd, wall, io);
    var at := if c.auth.Some? then wall else None;
    if c' == Handle(g, c, cmd, at, io) {
      HandleIsOneReply(g, c, cmd, at, io);
      HandleEnds(g, c, cmd, at, io);
    } else if |c'.log| == |c.log| + 1 {
      SayIsOneReply(g, c, c', f, io);
    } else {
      NoteAndSay(g, c, c', c'.log[|c.log|], f, io);
    }
  }

  lemma HandleEnds<S>(g: Gate<S>, c: Conn<S>, cmd: Command, at: Option<nat>, io: Io)
    ensures EndsIn(Handle(g, c, cmd, at, io), ToFrame(Execute(g.env, cmd, c.auth, c.shared).1, g.env.codec), io)
  {
    hide Execute, ToFrame;
  }

  /** Whatever branch it takes, a frame read in normal mode gets exactly one reply: the one it should. */
  lemma FrameIsOneReply<S>(g: Gate<S>, c: Conn<S>, f: Frame, at: Moment, io: Io)
    requires c.mode.Normal?
    ensures OneReply(g, c, Step(g, c, Incoming(f, at.instant, at.wall, io)), AnswerTo(g, c, f, at), io)
  {
    hide Execute, ToFrame, Process, OneReply, ParseCommand, ErrorText, Throttle, Verdict, Reaches, Dispatches;
    hide Aftermath;
    var c', answer := Step(g, c, Incoming(f, at.instant, at.wall, io)), AnswerTo(g, c, f, at);
    match ParseCommand(f, g.env.codec)
    case Err(e) =>
      BadFrameIsTold(g, c, f, at, io);
      SayIsOneReply(g, c, c', answer, io);
    case Ok(cmd) =>
      CommandIsJudged(g, c, f, cmd, at, io);
      var (bucket, ok) := Throttle(c.bucket, at.instant);
      if ok {
        var done := Process(g, c.(bucket := bucket), cmd, at.wall, io);
        ProcessIsOneReply(g, c.(bucket := bucket), cmd, at.wall, answer, io);
        SameLogSameReply(g, c, c.(bucket := bucket), done, answer, io);
        ClosingKeepsReply(g, c, done, io.write, answer, io);
      } else {
        SayIsOneReply(g, c, c', answer, io);
      }
  }

  lemma SameLogSameReply<S>(g: Gate<S>, c: Conn<S>, d: Conn<S>, c': Conn<S>, f: Frame, io: Io)
    requires c.log == d.log && c.shared == d.shared && OneReply(g, d, c', f, io)
    ensures OneReply(g, c, c', f, io)
  {
    hide Execute, ToFrame;
  }

  /** Closing afterwards does not matter to the reply. */
  lemma ClosingKeepsReply<S>(g: Gate<S>, c: Conn<S>, c': Conn<S>, ok: bool, f: Frame, io: Io)
    requires OneReply(g, c, c', f, io)
    ensures OneReply(g, c, ClosedUnless(ok, c'), f, io)
  {
    hide Execute, ToFrame;
  }

  // ---- Replies over runs ----

  /** The frames written, in order. */
  function Outputs<S>(log: seq<Action<S>>): seq<Frame> {
    if log == [] then [] else (if log[0].Sent? then [log[0].frame] else []) + Outputs(log[1..])
  }

  lemma {:induction false} OutputsConcat<S>(log: seq<Action<S>>, more: seq<Action<S>>)
    ensures Outputs(log + more) == Outputs(log) + Outputs(more)
    decreases |log|
  {
    if log == [] {
      assert log + more == more;
    } else {
      assert (log + more)[0] == log[0] && (log + more)[1..] == log[1..] + more;
      OutputsConcat(log[1..], more);
    }
  }

  /** A step writes exactly what is due. */
  lemma StepAnswers<S>(g: Gate<S>, c: Conn<S>, i: Input<S>)
    ensures var c' := Step(g, c, i);
            c.log <= c'.log && Outputs(Added(c, c')) == Due(g, c, i)
  {
    hide Receive, ToFrame, ParseCommand, ErrorText, PushFrame, Execute, Outputs, AnswerTo, StreamingReply;
    var c' := Step(g, c, i);
    if c.mode.Normal? && i.Incoming? {
      var at := Moment(i.instant, i.wall);
      FrameIsOneReply(g, c, i.frame, at, i.io);
      OneReplyIsOneOutput(g, c, c', AnswerTo(g, c, i.frame, at), i.io);
    } else if c'.log != c.log {
      var f := c'.log[|c.log|].frame;
      assert Added(c, c') == [Fate(f, i.io)];
      SingleOutput(f, i.io, c);
      if c.mode.Streaming? {
        StreamingStepSays(g, c, i);
      }
    } else {
      assert Added(c, c') == [];
      NoOutputs(c);
      if c.mode.Streaming? {
        StreamingStepSays(g, c, i);
      }
    }
  }

  /** What a step says while subscribed. */
  lemma StreamingStepSays<S>(g: Gate<S>, c: Conn<S>, i: Input<S>)
    requires c.mode.Streaming?
    ensures var c' := Step(g, c, i);
            var spoke := i.Happened? || i.Ended? || (i.Incoming? && ParseCommand(i.frame, g.env.codec).Ok?);
            && (spoke <==> c'.log != c.log)
            && (spoke ==> exists f :: c'.log == c.log + [Fate(f, i.io)] && StreamingDue(g, i) == Written(f, i.io))
            && (!spoke ==> StreamingDue(g, i) == [])
  {
    hide ToFrame, ParseCommand, PushFrame;
    var c' := Step(g, c, i);
    AfterStatus("message", VString("PONG"));
    if c'.log != c.log {
      var f := c'.log[|c.log|].frame;
      assert c'.log == c.log + [Fate(f, i.io)];
      assert StreamingDue(g, i) == Written(f, i.io);
    }
  }

  lemma SingleOutput<S>(f: Frame, io: Io, c: Conn<S>)
    ensures var d: seq<Action<S>> := [Fate(f, io)]; Outputs(d) == Written(f, io)
  {
  }

  lemma NoOutputs<S>(c: Conn<S>)
    ensures var d: seq<Action<S>> := []; Outputs(d) == []
  {
  }

  lemma OneReplyIsOneOutput<S>(g: Gate<S>, c: Conn<S>, c': Conn<S>, f: Frame, io: Io)
    requires OneReply(g, c, c', f, io)
    ensures Outputs(Added(c, c')) == Written(f, io)
  {
    hide Execute, ToFrame;
    var d := Added(c, c');
    if |d| == 2 {
      assert d[1..][1..] == [] && d[1..][0] == d[1];
      assert Outputs(d) == Outputs(d[1..]);
      assert Outputs(d[1..]) == (if d[1].Sent? then [d[1].frame] else []) + Outputs(d[1..][1..]);
    } else {
      assert d[1..] == [];
    }
  }

  lemma StepOutputs<S>(g: Gate<S>, c: Conn<S>, i: Input<S>)
    ensures Outputs(Step(g, c, i).log) == Outputs(c.log) + Due(g, c, i)
  {
    hide Step, Outputs, Due;
    var c' := Step(g, c, i);
    StepAnswers(g, c, i);
    assert c'.log == c.log + Added(c, c');
    OutputsConcat(c.log, Added(c, c'));
  }

  /** The frames due over a run, in order. */
  function AllDue<S>(g: Gate<S>, c: Conn<S>, inputs: seq<Input<S>>): seq<Frame>
    decreases |inputs|
  {
    if inputs == [] then [] else Due(g, c, inputs[0]) + AllDue(g, Step(g, c, inputs[0]), inputs[1..])
  }

  /** Over any run, in any mix of modes, exactly the frames that are due are written, in order. */
  lemma {:induction false} RunSendsWhatIsDue<S>(g: Gate<S>, c: Conn<S>, inputs: seq<Input<S>>)
    ensures Outputs(Run(g, c, inputs).log) == Outputs(c.log) + AllDue(g, c, inputs)
    decreases |inputs|
  {
    hide Step, Outputs, Due;
    if inputs == [] {
      assert Outputs(c.log) + [] == Outputs(c.log);
    } else {
      var first, next := Due(g, c, inputs[0]), Step(g, c, inputs[0]);
      var more := AllDue(g, next, inputs[1..]);
      StepOutputs(g, c, inputs[0]);
      RunSendsWhatIsDue(g, next, inputs[1..]);
      assert Outputs(c.log) + first + more == Outputs(c.log) + (first + more);
    }
  }

  /**
    Reply pairing, in any run and any mix of modes: what is due to an input is written after what was due to
    the inputs before it and before what is due to those after it.
   */
  lemma RepliesPairWithRequests<S>(g: Gate<S>, c: Conn<S>, inputs: seq<Input<S>>, k: nat)
    requires k < |inputs|
    ensures var one := Run(g, c, inputs[..k]);
            Outputs(Run(g, c, inputs).log) == Outputs(c.log) + AllDue(g, c, inputs[..k]) + Due(g, one, inputs[k])
                                              + AllDue(g, Step(g, one, inputs[k]), inputs[k + 1..])
  {
    hide Run, Outputs, AllDue, Due;
    var one := Run(g, c, inputs[..k]);
    assert inputs == inputs[..k] + inputs[k..] && inputs[k..][0] == inputs[k] && inputs[k..][1..] == inputs[k + 1..];
    RunSplit(g, c, inputs[..k], inputs[k..]);
    RunSendsWhatIsDue(g, c, inputs[..k]);
    RunSendsWhatIsDue(g, one, inputs[k..]);
    DueSplits(g, one, inputs[k..]);
    var a, b, d := AllDue(g, c, inputs[..k]), Due(g, one, inputs[k]),
        AllDue(g, Step(g, one, inputs[k]), inputs[k + 1..]);
    assert Outputs(c.log) + a + (b + d) == Outputs(c.log) + a + b + d;
  }

  lemma DueSplits<S>(g: Gate<S>, c: Conn<S>, inputs: seq<Input<S>>)
    requires inputs != []
    ensures AllDue(g, c, inputs) == Due(g, c, inputs[0]) + AllDue(g, Step(g, c, inputs[0]), inputs[1..])
  {
    hide Step, Due;
  }

  // ---- The log accounts for the store ----

  /**
    Running the logged commands one after the other, each from the state it was logged with, leads
    from `st` to `end`.
   */
  ghost predicate Accounts<S>(env: Env<S>, st: State<S>, log: seq<Action<S>>, end: State<S>)
    decreases |log|
  {
    if log == [] then st == end
    else if log[0].Dispatched? then
      log[0].before == st && Accounts(env, Execute(env, log[0].command, log[0].auth, st).0, log[1..], end)
    else Accounts(env, st, log[1..], end)
  }

  lemma {:induction false} AccountsConcat<S>(env: Env<S>, st: State<S>, log: seq<Action<S>>, mid: State<S>,
                                             more: seq<Action<S>>, end: State<S>)
    requires Accounts(env, st, log, mid) && Accounts(env, mid, more, end)
    ensures Accounts(env, st, log + more, end)
    decreases |log|
  {
    hide Execute;
    if log == [] {
      assert log + more == more;
    } else {
      assert (log + more)[0] == log[0] && (log + more)[1..] == log[1..] + more;
      AccountsConcat(env, if log[0].Dispatched? then Execute(env, log[0].command, log[0].auth, st).0
          else st, log[1..], mid, more, end);
    }
  }

  lemma NothingAccounts<S>(env: Env<S>, st: State<S>, log: seq<Action<S>>)
    requires |log| <= 2 && forall k :: 0 <= k < |log| ==> !log[k].Dispatched?
    ensures Accounts(env, st, log, st)
  {
    hide Execute;
    if |log| == 2 {
      assert Accounts(env, st, log[1..], st);
    }
  }

  lemma OneReplyAccounts<S>(g: Gate<S>, c: Conn<S>, c': Conn<S>, f: Frame, io: Io)
    requires OneReply(g, c, c', f, io)
    ensures Accounts(g.env, c.shared, Added(c, c'), c'.shared)
  {
    hide Execute, ToFrame;
    var d := Added(c, c');
    if |d| == 2 && d[0].Dispatched? {
      NothingAccounts(g.env, c'.shared, d[1..]);
    } else {
      NothingAccounts(g.env, c.shared, d);
    }
  }

  lemma StepAccounts<S>(g: Gate<S>, c: Conn<S>, i: Input<S>)
    requires !i.Elsewhere?
    ensures var c' := Step(g, c, i); c.log <= c'.log && Accounts(g.env, c.shared, Added(c, c'), c'.shared)
  {
    hide Receive, ToFrame, ParseCommand, ErrorText, PushFrame, Execute, Accounts, AnswerTo;
    var c' := Step(g, c, i);
    if c.mode.Normal? && i.Incoming? {
      var at := Moment(i.instant, i.wall);
      FrameIsOneReply(g, c, i.frame, at, i.io);
      OneReplyAccounts(g, c, c', AnswerTo(g, c, i.frame, at), i.io);
    } else {
      NothingAccounts(g.env, c.shared, Added(c, c'));
    }
  }

  /**
    A connection left alone changes the store only by the commands it logs as dispatched, in that order,
    each in the state the previous one left.
   */
  lemma {:induction false} LogAccountsForStore<S>(g: Gate<S>, c: Conn<S>, inputs: seq<Input<S>>)
    requires forall i :: 0 <= i < |inputs| ==> !inputs[i].Elsewhere?
    ensures var c' := Run(g, c, inputs); c.log <= c'.log && Accounts(g.env, c.shared, Added(c, c'), c'.shared)
    decreases |inputs|
  {
    hide Step, Accounts;
    var c' := Run(g, c, inputs);
    if inputs == [] {
      assert Added(c, c') == [];
      NothingAccounts(g.env, c.shared, []);
    } else {
      var c1 := Step(g, c, inputs[0]);
      StepAccounts(g, c, inputs[0]);
      LogAccountsForStore(g, c1, inputs[1..]);
      assert Added(c, c') == Added(c, c1) + Added(c1, c');
      AccountsConcat(g.env, c.shared, Added(c, c1), c1.shared, Added(c1, c'), c'.shared);
    }
  }

  // ---- Streaming mode ----

  /** UNSUBSCRIBE, or the end of the subscription. */
  predicate Leaves<S>(g: Gate<S>, i: Input<S>) {
    i.Ended? || (i.Incoming? && ParseCommand(i.frame, g.env.codec) == Ok(Unsubscribe))
  }

  /** One input resumes normal mode exactly when it is one of those two. */
  lemma StreamingResumesExactly<S>(g: Gate<S>, c: Conn<S>, i: Input<S>)
    requires c.mode.Streaming?
    ensures Step(g, c, i).mode.Normal? <==> Leaves(g, i)
  {
    hide ToFrame, ParseCommand, PushFrame;
  }

  /** Until then nothing is dispatched, subscribed to, authenticated or throttled, and only frames are sent. */
  lemma {:induction false} StreamingIsIsolated<S>(g: Gate<S>, c: Conn<S>, inputs: seq<Input<S>>)
    requires c.mode.Streaming? || c.mode.Closed?
    requires forall i :: 0 <= i < |inputs| ==> !Leaves(g, inputs[i])
    ensures var c' := Run(g, c, inputs);
            && !c'.mode.Normal? && c'.auth == c.auth && c'.bucket == c.bucket && c.log <= c'.log
            && (forall k :: |c.log| <= k < |c'.log| ==> IsAnswer(c'.log[k]))
            && ((forall i :: 0 <= i < |inputs| ==> !inputs[i].Elsewhere?) ==> c'.shared == c.shared)
    decreases |inputs|
  {
    hide ToFrame, ParseCommand, PushFrame, StepNormal;
    if inputs != [] {
      StreamingIsIsolated(g, Step(g, c, inputs[0]), inputs[1..]);
    }
  }

  // ---- Throughput ----

  /** Commands that got past the limiter and did something. */
  function Work<S>(log: seq<Action<S>>): nat {
    if log == [] then 0 else (if IsAnswer(log[0]) then 0 else 1) + Work(log[1..])
  }

  lemma {:induction false} WorkConcat<S>(log: seq<Action<S>>, more: seq<Action<S>>)
    ensures Work(log + more) == Work(log) + Work(more)
    decreases |log|
  {
    if log == [] {
      assert log + more == more;
    } else {
      assert (log + more)[0] == log[0] && (log + more)[1..] == log[1..] + more;
      WorkConcat(log[1..], more);
    }
  }

  /** Frames come in time order, none before `from` or after `end`. */
  predicate Timely<S>(inputs: seq<Input<S>>, from: real, end: real) {
    && from <= end
    && (inputs != [] ==>
          if inputs[0].Incoming? then from <= inputs[0].instant <= end && Timely(inputs[1..], inputs[0].instant, end)
          else Timely(inputs[1..], from, end))
  }

  lemma AcquireSpends(b: Bucket, now: real)
    requires 0.0 <= b.tokens && b.lastRefill <= now
    ensures var (b', ok) := Acquire(b, now);
            && b'.limit == b.limit && b'.lastRefill == now && 0.0 <= b'.tokens
            && (if ok then 1.0 else 0.0) + b'.tokens <= b.tokens + Earned(b.limit, now - b.lastRefill)
  {
    hide Earned;
    EarnedIsNonNegative(b.limit, now - b.lastRefill);
  }

  lemma ProcessKeepsBucket<S>(g: Gate<S>, c: Conn<S>, cmd: Command, wall: Option<nat>, io: Io)
    ensures Process(g, c, cmd, wall, io).bucket == c.bucket
  {
    hide Execute, ToFrame, RequirementOf, EventFilter;
  }

  lemma OneReplyIsOneWork<S>(g: Gate<S>, c: Conn<S>, c': Conn<S>, f: Frame, io: Io)
    requires OneReply(g, c, c', f, io)
    ensures Work(Added(c, c')) <= 1 && (|Added(c, c')| == 1 ==> Work(Added(c, c')) == 0)
  {
    hide Execute, ToFrame;
    var d := Added(c, c');
    if |d| == 2 {
      assert d[1..][0] == d[1] && d[1..][1..] == [];
      assert Work(d[1..]) == Work(d[1..][1..]);
    } else {
      assert d[1..] == [];
    }
  }

  /** Work done and tokens kept are covered by the tokens held and those earned. */
  predicate Spends<S>(c: Conn<S>, c': Conn<S>)
    requires c.bucket.Some?
  {
    && |c.log| <= |c'.log| && c'.bucket.Some?
    && var b, b' := c.bucket.value, c'.bucket.value;
       && b'.limit == b.limit && b.lastRefill <= b'.lastRefill && 0.0 <= b'.tokens
       && Work(c'.log[|c.log|..]) as real + b'.tokens <= b.tokens + Earned(b.limit, b'.lastRefill - b.lastRefill)
  }

  lemma FrameSpends<S>(g: Gate<S>, c: Conn<S>, f: Frame, at: Moment, io: Io)
    requires c.mode.Normal?
    requires c.bucket.Some? && 0.0 <= c.bucket.value.tokens && c.bucket.value.lastRefill <= at.instant
    ensures var c' := Step(g, c, Incoming(f, at.instant, at.wall, io));
            Spends(c, c') && c.log <= c'.log && c'.bucket.value.lastRefill <= at.instant
  {
    hide Execute, ToFrame, Process, ParseCommand, ErrorText, Acquire, Earned, OneReply, Work, AnswerTo;
    var c', answer := Step(g, c, Incoming(f, at.instant, at.wall, io)), AnswerTo(g, c, f, at);
    var b := c.bucket.value;
    FrameIsOneReply(g, c, f, at, io);
    OneReplyGrows(g, c, c', answer, io);
    OneReplyIsOneWork(g, c, c', answer, io);
    EarnedUnits(b.limit);
    match ParseCommand(f, g.env.codec)
    case Err(e) =>
    case Ok(cmd) =>
      AcquireSpends(b, at.instant);
      ProcessKeepsBucket(g, c.(bucket := Throttle(c.bucket, at.instant).0), cmd, at.wall, io);
  }

  lemma OneReplyGrows<S>(g: Gate<S>, c: Conn<S>, c': Conn<S>, f: Frame, io: Io)
    requires OneReply(g, c, c', f, io)
    ensures c.log <= c'.log
  {
    hide Execute, ToFrame;
  }

  lemma StepSpends<S>(g: Gate<S>, c: Conn<S>, i: Input<S>)
    requires c.bucket.Some? && 0.0 <= c.bucket.value.tokens
    requires i.Incoming? ==> c.bucket.value.lastRefill <= i.instant
    ensures var c' := Step(g, c, i);
            Spends(c, c') && c.log <= c'.log
                && (c'.bucket == c.bucket || (i.Incoming? && c'.bucket.value.lastRefill <= i.instant))
  {
    hide Receive, ToFrame, ParseCommand, ErrorText, PushFrame, Earned, Work, Execute;
    var c' := Step(g, c, i);
    if c.mode.Normal? && i.Incoming? {
      FrameSpends(g, c, i.frame, Moment(i.instant, i.wall), i.io);
    } else {
      EarnedUnits(c.bucket.value.limit);
      SentIsNoWork(c'.log[|c.log|..]);
    }
  }

  lemma SentIsNoWork<S>(log: seq<Action<S>>)
    requires |log| <= 1 && forall k :: 0 <= k < |log| ==> IsAnswer(log[k])
    ensures Work(log) == 0
  {
  }

  lemma {:induction false} RunSpends<S>(g: Gate<S>, c: Conn<S>, inputs: seq<Input<S>>, from: real, end: real)
    requires c.bucket.Some? && 0.0 <= c.bucket.value.tokens && c.bucket.value.lastRefill <= from
    requires Timely(inputs, from, end)
    ensures var c' := Run(g, c, inputs);
            c.log <= c'.log && Spends(c, c') && c'.bucket.value.lastRefill <= end
    decreases |inputs|
  {
    hide Step, Earned, Work;
    var c' := Run(g, c, inputs);
    EarnedUnits(c.bucket.value.limit);
    if inputs == [] {
      SentIsNoWork(c'.log[|c.log|..]);
    } else {
      var c1 := Step(g, c, inputs[0]);
      StepSpends(g, c, inputs[0]);
      RunSpends(g, c1, inputs[1..], if inputs[0].Incoming? then inputs[0].instant else from, end);
      SpendsTransitively(c, c1, c');
    }
  }

  lemma SpendsTransitively<S>(c: Conn<S>, c1: Conn<S>, c2: Conn<S>)
    requires c.bucket.Some? && c.log <= c1.log && c1.log <= c2.log
    requires Spends(c, c1) && Spends(c1, c2)
    ensures Spends(c, c2)
  {
    hide Earned, Work;
    assert c2.log[|c.log|..] == c1.log[|c.log|..] + c2.log[|c1.log|..];
    WorkConcat(c1.log[|c.log|..], c2.log[|c1.log|..]);
    var b, b1, b2 := c.bucket.value, c1.bucket.value, c2.bucket.value;
    EarnedAdds(b.limit, b1.lastRefill - b.lastRefill, b2.lastRefill - b1.lastRefill);
    assert b1.lastRefill - b.lastRefill + (b2.lastRefill - b1.lastRefill) == b2.lastRefill - b.lastRefill;
  }

  /**
    The limiter bounds what a connection does: by time `end` at most 1 + limit * (end - now) commands have
    been dispatched, subscribed, authenticated or found expired, whatever the client sends.
   */
  lemma ThroughputIsBounded<S>(g: Gate<S>, limit: nat, now: real, shared: State<S>, inputs: seq<Input<S>>, end: real)
    requires Timely(inputs, now, end)
    ensures Work(Run(g, Opened(g, Some(limit), now, shared), inputs).log) as real <= 1.0 + Earned(limit, end - now)
  {
    hide Run, Earned, Work, Timely;
    var c := Opened(g, Some(limit), now, shared);
    RunSpends(g, c, inputs, now, end);
    var c' := Run(g, c, inputs);
    assert c'.log[|c.log|..] == c'.log;
    var last := c'.bucket.value.lastRefill;
    EarnedAdds(limit, last - now, end - last);
    EarnedIsNonNegative(limit, end - last);
    assert last - now + (end - last) == end - now;
  }
}
