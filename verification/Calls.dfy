/**
  Calls over a connection: a request encoded by the client, processed by the server's connection and
  dispatcher over some store, and decoded by the client.
 */
module Calls {
  import opened Text
  import opened Frames
  import opened Commands
  import opened CommandParser
  import opened ClientReader
  import opened ClientIO
  import opened Requests
  import opened RequestPath
  import opened Replies
  import opened Connection
  import opened Verdicts
  import opened ConnectionTraffic
  import ServerReader
  import ServerCodec

  /** The client is there to read its answer. */
  const WORKING: Io := Io(true, true)

  /** What the connection makes of the bytes of one request. */
  function Arriving<S>(bytes: Bytes, at: Moment): Input<S> {
    match ServerReader.ReadFrame(bytes)
    case Got(f, _) => Incoming(f, at.instant, at.wall, WORKING)
    case Eof => EndOfInput
    case Bad(e) => Malformed(e, WORKING)
  }

  /** What a connection logged between two states. */
  function Since<S>(c: Conn<S>, c': Conn<S>): seq<Action<S>> {
    if |c.log| <= |c'.log| then c'.log[|c.log|..] else []
  }

  /** The connection takes one request and writes its answer. */
  function Serve<S>(g: Gate<S>, c: Conn<S>, bytes: Bytes, at: Moment): (Conn<S>, Bytes) {
    var c' := Step(g, c, Arriving(bytes, at));
    (c', EncodeItems(Outputs(Since(c, c'))))
  }

  /** A connection and what the client at its other end has received but not read. */
  datatype Link<+S> = Link(conn: Conn<S>, unread: Bytes)

  /** Bytes sent over a link: the client reads the next reply, first from what it had not read before. */
  function Exchange<S>(g: Gate<S>, l: Link<S>, bytes: Bytes, at: Moment): (Link<S>, Taken<Response>) {
    var (c', answer) := Serve(g, l.conn, bytes, at);
    var t := ReadValue(l.unread + answer);
    (Link(c', t.rest), t)
  }

  /** One call: the request's bytes out, one reply back. */
  function Call<S>(g: Gate<S>, l: Link<S>, q: Request, at: Moment): (Link<S>, Taken<Response>) {
    Exchange(g, l, Encode(CommandFrame(Arguments(q, g.env.codec))), at)
  }

  // ---- What a call comes to ----

  /** One frame over a connection in normal mode: the step of the connection, and the bytes written. */
  lemma FrameIsServed<S>(g: Gate<S>, c: Conn<S>, bytes: Bytes, at: Moment)
    requires c.mode.Normal? && ServerReader.ReadFrame(bytes).Got?
    ensures var f := ServerReader.ReadFrame(bytes).value;
            Serve(g, c, bytes, at)
            == (Step(g, c, Incoming(f, at.instant, at.wall, WORKING)), Encode(AnswerTo(g, c, f, at)))
  {
    hide Step, AnswerTo, ServerReader.ReadFrame, Outputs;
    var f := ServerReader.ReadFrame(bytes).value;
    StepAnswers(g, c, Incoming(f, at.instant, at.wall, WORKING));
    OneItem(AnswerTo(g, c, f, at));
  }

  /** The same with the client's side: it reads on from where it was. */
  lemma FrameIsExchanged<S>(g: Gate<S>, l: Link<S>, f: Frame, at: Moment)
    requires l.conn.mode.Normal? && ServerReader.Readable(f, 0)
    ensures var (l', t) := Exchange(g, l, Encode(f), at);
            && l'.conn == Step(g, l.conn, Incoming(f, at.instant, at.wall, WORKING))
            && t == ReadValue(l.unread + Encode(AnswerTo(g, l.conn, f, at))) && l'.unread == t.rest
  {
    hide Step, AnswerTo, ServerReader.ReadFrame, ServerReader.Readable, Encode, ReadValue, Serve;
    ServerCodec.RoundTripExactly(f, []);
    assert Encode(f) + [] == Encode(f);
    FrameIsServed(g, l.conn, Encode(f), at);
  }

  /** One command over a connection in normal mode: what becomes of the connection, and the bytes written. */
  lemma CommandIsAnswered<S>(g: Gate<S>, c: Conn<S>, bytes: Bytes, cmd: Command, at: Moment)
    requires c.mode.Normal?
    requires ServerReader.ReadFrame(bytes).Got?
            && ParseCommand(ServerReader.ReadFrame(bytes).value, g.env.codec) == Ok(cmd)
    ensures var (c', answer) := Serve(g, c, bytes, at);
            && Aftermath(g, c, cmd, at, WORKING, c') && (Dispatches(c, c') <==> Reaches(g, c, cmd, at))
            && answer == Encode(ToFrame(Verdict(g, c, cmd, at), g.env.codec))
  {
    hide Step, ToFrame, ParseCommand, Verdict, ServerReader.ReadFrame, Aftermath, Dispatches, Reaches, Serve;
    CommandIsJudged(g, c, ServerReader.ReadFrame(bytes).value, cmd, at, WORKING);
    FrameIsServed(g, c, bytes, at);
  }

  /** The same with the client's side: it reads on from where it was. */
  lemma CommandIsExchanged<S>(g: Gate<S>, l: Link<S>, bytes: Bytes, cmd: Command, at: Moment)
    requires l.conn.mode.Normal?
    requires ServerReader.ReadFrame(bytes).Got?
    requires ParseCommand(ServerReader.ReadFrame(bytes).value, g.env.codec) == Ok(cmd)
    ensures var (l', t) := Exchange(g, l, bytes, at);
            var c := l.conn;
            && Aftermath(g, c, cmd, at, WORKING, l'.conn) && (Dispatches(c, l'.conn) <==> Reaches(g, c, cmd, at))
            && t == ReadValue(l.unread + Encode(ToFrame(Verdict(g, c, cmd, at), g.env.codec)))
            && l'.unread == t.rest
            && (l.unread == [] ==> t == Received(Verdict(g, c, cmd, at), [], g.env.codec))
  {
    hide Aftermath, Verdict, Dispatches, Reaches, Serve, ParseCommand, ServerReader.ReadFrame, Encode, ToFrame;
    hide ReadValue;
    CommandIsAnswered(g, l.conn, bytes, cmd, at);
    var answer := Encode(ToFrame(Verdict(g, l.conn, cmd, at), g.env.codec));
    assert answer + [] == answer && [] + answer == answer;
  }

  /**
    A call over a link whose connection is in normal mode: the server gives its verdict on exactly the
    intended command, and that command reaches the dispatcher, once, if and only if the limiter admits
    it, it is neither AUTH nor SUBSCRIBE, and the connection is cleared for it. The client reads on from
    where it was, so it receives that verdict if nothing was unread.
   */
  lemma CallExecutes<S>(g: Gate<S>, l: Link<S>, q: Request, at: Moment)
    requires l.conn.mode.Normal? && Sendable(q, g.env.codec)
    ensures var (l', t) := Call(g, l, q, at);
            var c, cmd := l.conn, Meaning(q);
            && Aftermath(g, c, cmd, at, WORKING, l'.conn) && (Dispatches(c, l'.conn) <==> Reaches(g, c, cmd, at))
            && t == ReadValue(l.unread + Encode(ToFrame(Verdict(g, c, cmd, at), g.env.codec)))
            && l'.unread == t.rest
            && (l.unread == [] ==> t == Received(Verdict(g, c, cmd, at), [], g.env.codec))
  {
    hide ParseCommand, Encode, ServerReader.ReadFrame, Arguments, Meaning, Sendable, ToFrame, ReadValue, CommandFrame;
    hide Aftermath, Verdict, Dispatches, Reaches, Exchange;
    RequestArrives(q, g.env.codec, []);
    var wire := Encode(CommandFrame(Arguments(q, g.env.codec)));
    assert wire + [] == wire;
    CommandIsExchanged(g, l, wire, Meaning(q), at);
  }
}
