/** The client's pipeline call over a connection, there and back. */
module PipelineCalls {
  import opened Text
  import opened Frames
  import opened Commands
  import opened CommandParser
  import opened ClientReader
  import opened ClientCodec
  import opened ClientIO
  import opened Requests
  import opened RequestPath
  import opened Replies
  import opened Idempotency
  import opened Dispatcher
  import opened ExecutionFacts
  import opened Retries
  import opened Connection
  import opened Verdicts
  import opened Calls
  import ServerReader

  datatype PipelineResult = Responses(items: seq<Response>) | Refused(text: Bytes) | Unexpected | Broken(fault: Fault)

  /** What the client makes of the one reply. */
  function ResponsesOf(t: Taken<Response>): PipelineResult {
    match t
    case Took(RArray(items), _) => Responses(items)
    case Took(RError(text), _) => Refused(text)
    case Took(_, _) => Unexpected
    case Failed(fault, _) => Broken(fault)
  }

  /** `pipeline`: one frame out, one reply back. */
  function PipelineCall<S>(g: Gate<S>, l: Link<S>, qs: seq<Request>, id: Option<Bytes>, at: Moment)
      : (Link<S>, PipelineResult)
  {
    var (l', t) := Exchange(g, l, Encode(PipelineOf(qs, id, g.env.codec)), at);
    (l', ResponsesOf(t))
  }

  /** The requests and the id fit the server's limits. */
  predicate Fits(qs: seq<Request>, id: Option<Bytes>, codec: JsonCodec) {
    && qs != [] && SendableAll(qs, codec)
    && |PipelineHead(id)| + |qs| <= ServerReader.MAX_COLLECTION_SIZE
    && (id.Some? ==> FitsArgument(id.value))
  }

  /** The command the call comes to at the server. */
  function PipelineMeaning(qs: seq<Request>, id: Option<Bytes>): Command {
    Pipeline(Meanings(qs), id)
  }

  lemma PipelineCallExecutes<S>(g: Gate<S>, l: Link<S>, qs: seq<Request>, id: Option<Bytes>, at: Moment)
    requires l.conn.mode.Normal? && Fits(qs, id, g.env.codec)
    ensures var (l', result) := PipelineCall(g, l, qs, id, at);
            var c, cmd := l.conn, PipelineMeaning(qs, id);
            var t := Received(Verdict(g, c, cmd, at), [], g.env.codec);
            && Aftermath(g, c, cmd, at, WORKING, l'.conn) && (Dispatches(c, l'.conn) <==> Reaches(g, c, cmd, at))
            && (l.unread == [] ==> result == ResponsesOf(t) && l'.unread == t.rest)
  {
    hide ParseCommand, Encode, ServerReader.ReadFrame, ToFrame, ReadValue, PipelineOf, SendableAll, Meanings;
    hide PipelineHead;
    hide Aftermath, Verdict, Dispatches, Reaches, Exchange, Received;
    PipelineArrives(qs, id, g.env.codec, []);
    var wire := Encode(PipelineOf(qs, id, g.env.codec));
    assert wire + [] == wire;
    CommandIsExchanged(g, l, wire, PipelineMeaning(qs, id), at);
  }

  /**
    A pipeline call that gets to the dispatcher, with nothing unread before and no fresh cached reply,
    returns one response per request and leaves nothing unread, the i-th response being the image of the
    reply to the i-th command run in the state the first i left, provided that the client can decode the
    replies at all.
   */
  lemma ResponsesInOrder<S>(g: Gate<S>, l: Link<S>, qs: seq<Request>, id: Option<Bytes>, at: Moment, i: nat)
    requires l.conn.mode.Normal? && l.unread == [] && Fits(qs, id, g.env.codec) && i < |qs|
    requires Reaches(g, l.conn, PipelineMeaning(qs, id), at) && !HasFreshReply(g.env, id, l.conn.shared)
    requires Decodable(ToFrame(Verdict(g, l.conn, PipelineMeaning(qs, id), at), g.env.codec))
    ensures var (l', result) := PipelineCall(g, l, qs, id, at);
            var auth, begin := l.conn.auth, Begin(g.env, id, l.conn.shared);
            var before := StateBefore(g.env, Meanings(qs), auth, begin, i);
            && result.Responses? && |result.items| == |qs| && l'.unread == []
            && result.items[i] == Image(ToFrame(Execute(g.env, Meaning(qs[i]), auth, before).1, g.env.codec))
  {
    hide PipelineCall, Execute, ToFrame, Fits, Received, HasFreshReply, StateBefore, Begin, Decodable, Aftermath;
    hide Dispatches, Image;
    var c, cmd := l.conn, PipelineMeaning(qs, id);
    PipelineCallExecutes(g, l, qs, id, at);
    ReachedVerdict(g, c, cmd, at);
    PipelineRepliesInOrder(g.env, Meanings(qs), id, c.auth, c.shared, i);
    ManyIsReceived(Verdict(g, c, cmd, at).responses, g.env.codec);
  }

  lemma ReachedVerdict<S>(g: Gate<S>, c: Conn<S>, cmd: Command, at: Moment)
    requires Reaches(g, c, cmd, at)
    ensures Verdict(g, c, cmd, at) == Execute(g.env, cmd, c.auth, c.shared).1
  {
    hide Execute;
  }

  lemma ManyIsReceived(rs: seq<CommandResponse>, codec: JsonCodec)
    requires Decodable(ToFrame(Many(rs), codec))
    ensures Received(Many(rs), [], codec) == Took(RArray(ImageItems(ToFrames(rs, codec))), [])
  {
    hide ReadValue, Encode;
    FrameIsTaken(ToFrame(Many(rs), codec), []);
  }

  /**
    A retry: after a pipeline call with an id got through, and whatever the server did since, another
    pipeline call with that id that gets through, over any link, leaves store and cache alone until 300
    seconds after the first reply was stored; with nothing unread before either call it returns the same responses
    and leaves the same unread.
   */
  lemma RetryReturnsSameResponses<S>(g: Gate<S>, l: Link<S>, qs: seq<Request>, id: Bytes, at: Moment,
                                     acts: seq<Activity>,
                                     g': Gate<S>, l2: Link<S>, qs': seq<Request>, at': Moment)
    requires Monotone(g.env.clock) && g'.env == g.env
    requires l.conn.mode.Normal? && Fits(qs, Some(id), g.env.codec)
    requires Reaches(g, l.conn, PipelineMeaning(qs, Some(id)), at)
    requires l2.conn.mode.Normal? && Fits(qs', Some(id), g.env.codec)
    requires Reaches(g', l2.conn, PipelineMeaning(qs', Some(id)), at')
    requires var st := PipelineCall(g, l, qs, Some(id), at).0.conn.shared;
             && l2.conn.shared == ActAll(g.env, acts, st)
             && id in st.cache && g.env.clock(l2.conn.shared.ticks) < st.cache[id].createdAt + 300_000_000_000
    ensures var (l1, first) := PipelineCall(g, l, qs, Some(id), at);
            var (l3, again) := PipelineCall(g', l2, qs', Some(id), at');
            && l3.conn.shared.store == l2.conn.shared.store && l3.conn.shared.cache == l2.conn.shared.cache
            && (l.unread == [] && l2.unread == [] ==> again == first && l3.unread == l1.unread)
  {
    hide PipelineCall, Execute, ToFrame, Fits, ActAll, Fresh, Monotone, Reaches, Verdict, Meanings, ReadValue, Encode;
    hide Dispatches;
    PipelineCallExecutes(g, l, qs, Some(id), at);
    PipelineCallExecutes(g', l2, qs', Some(id), at');
    ReachedVerdict(g, l.conn, PipelineMeaning(qs, Some(id)), at);
    ReachedVerdict(g', l2.conn, PipelineMeaning(qs', Some(id)), at');
    RetryRepeatsFirstReply(g.env, Meanings(qs), id, l.conn.auth, l.conn.shared, acts, Meanings(qs'), l2.conn.auth);
  }

  // ---- Calls that do not get through ----

  /** What a pipeline that does not get to the dispatcher is answered with. */
  function NotReached<S>(c: Conn<S>, at: Moment): CommandError {
    if !Admits(c, at) then Denied("rate limit exceeded")
    else if c.auth.Some? && at.wall.None? then Internal("system clock error")
    else NotAuthenticated
  }

  lemma NotReachedText<S>(c: Conn<S>, at: Moment)
    ensures ErrorText(NotReached(c, at)) ==
            if !Admits(c, at) then "permission denied: " + "rate limit exceeded"
            else if c.auth.Some? && at.wall.None? then "internal error: " + "system clock error"
            else "not authenticated"
    ensures ServerReader.OneLine(ErrorText(NotReached(c, at)))
  {
    hide Admits, ServerReader.OneLine, ComplaintText;
    assert "not authenticated" + [] == "not authenticated";
    ServerReader.PlainLine("not authenticated");
    ServerReader.PlainLine("permission denied: ");
    ServerReader.PlainLine("rate limit exceeded");
    ServerReader.JoinedLine("permission denied: ", "rate limit exceeded");
    ServerReader.PlainLine("internal error: ");
    ServerReader.PlainLine("system clock error");
    ServerReader.JoinedLine("internal error: ", "system clock error");
  }

  /**
    A pipeline call that does not get to the dispatcher, with nothing unread before, returns the text of the
    refusal, leaves nothing unread, and nothing of it was run.
   */
  lemma RefusalIsReturned<S>(g: Gate<S>, l: Link<S>, qs: seq<Request>, id: Option<Bytes>, at: Moment)
    requires l.conn.mode.Normal? && l.unread == [] && Fits(qs, id, g.env.codec)
    requires !Reaches(g, l.conn, PipelineMeaning(qs, id), at)
    ensures var (l', result) := PipelineCall(g, l, qs, id, at);
            result == Refused(ErrorText(NotReached(l.conn, at))) && l'.unread == [] && l'.conn.shared == l.conn.shared
  {
    hide PipelineCall, Execute, Fits, Received, Dispatches, ErrorText, Throttle, Admits, Subscribes;
    var cmd := PipelineMeaning(qs, id);
    PipelineCallExecutes(g, l, qs, id, at);
    assert Verdict(g, l.conn, cmd, at) == Failure(NotReached(l.conn, at));
    NotReachedText(l.conn, at);
    FailureIsReceived(NotReached(l.conn, at), [], g.env.codec);
  }
}
