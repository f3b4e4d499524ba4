/**
  Which reply a call gets. The client takes one reply per call from one stream of bytes, so a reply that
  is not read whole is taken up again by the next call.
 */
module Pairing {
  import opened Text
  import opened Frames
  import opened Commands
  import opened CommandParser
  import opened ClientReader
  import opened ClientCodec
  import opened ClientIO
  import opened Requests
  import opened RequestPath
  import opened Replies
  import opened Dispatcher
  import opened Connection
  import opened Verdicts
  import opened Calls
  import ServerReader
  import Utf8

  /** The frame of the server's verdict on a request. */
  function VerdictFrame<S>(g: Gate<S>, c: Conn<S>, q: Request, at: Moment): Frame {
    ToFrame(Verdict(g, c, Meaning(q), at), g.env.codec)
  }

  /** The call gets the server's verdict on its own request, whole. */
  predicate Paired<S>(g: Gate<S>, l: Link<S>, q: Request, at: Moment) {
    Call(g, l, q, at).1 == Took(Image(VerdictFrame(g, l.conn, q, at)), [])
  }

  /** With nothing unread before, that is so exactly when the client can decode the verdict's frame. */
  lemma PairedExactly<S>(g: Gate<S>, l: Link<S>, q: Request, at: Moment)
    requires l.conn.mode.Normal? && l.unread == [] && Sendable(q, g.env.codec)
    requires WellTyped(VerdictFrame(g, l.conn, q, at))
    ensures Paired(g, l, q, at) <==> Decodable(VerdictFrame(g, l.conn, q, at))
    ensures Paired(g, l, q, at) ==> Call(g, l, q, at).0.unread == []
  {
    hide Exchange, Verdict, ToFrame, Image, Decodable, WellTyped, Sendable, Meaning, AnswerTo, Encode;
    var f := RequestFrame(g, q);
    RequestIsReadable(g, q);
    RequestIsAnswered(g, l.conn, q, at);
    ExchangeIsPairedExactly(g, l, f, at);
  }

  /** The frame the client sends for a request. */
  function RequestFrame<S>(g: Gate<S>, q: Request): Frame {
    CommandFrame(Arguments(q, g.env.codec))
  }

  lemma RequestIsReadable<S>(g: Gate<S>, q: Request)
    requires Sendable(q, g.env.codec)
    ensures ServerReader.Readable(RequestFrame(g, q), 0)
  {
    hide Sendable, Arguments, ServerReader.Readable;
    RequestFrameIsReadable(q, g.env.codec, 0);
  }

  lemma RequestIsAnswered<S>(g: Gate<S>, c: Conn<S>, q: Request, at: Moment)
    requires Sendable(q, g.env.codec)
    ensures AnswerTo(g, c, RequestFrame(g, q), at) == VerdictFrame(g, c, q, at)
  {
    hide Sendable, Arguments, Meaning, ParseCommand, Verdict, ToFrame;
    RequestFrameIsParsed(q, g.env.codec);
  }

  /** For any frame: the client that sends it gets the answer to it, whole, exactly when it can decode that. */
  lemma ExchangeIsPairedExactly<S>(g: Gate<S>, l: Link<S>, f: Frame, at: Moment)
    requires l.conn.mode.Normal? && l.unread == [] && ServerReader.Readable(f, 0)
    requires WellTyped(AnswerTo(g, l.conn, f, at))
    ensures var (l', t) := Exchange(g, l, Encode(f), at);
            && (t == Took(Image(AnswerTo(g, l.conn, f, at)), []) <==> Decodable(AnswerTo(g, l.conn, f, at)))
            && l'.unread == t.rest
  {
    hide Exchange, Step, AnswerTo, ReadValue, Encode, Image, Decodable, WellTyped, ServerReader.Readable;
    FrameIsExchanged(g, l, f, at);
    var answer := Encode(AnswerTo(g, l.conn, f, at));
    assert [] + answer == answer && answer + [] == answer;
    ReadersAgreeExactly(AnswerTo(g, l.conn, f, at), []);
  }

  /** For an error the condition is that its text has no newline. */
  lemma ErrorIsDecodableExactly(e: CommandError, codec: JsonCodec)
    requires Utf8.Valid(ErrorText(e))
    ensures Decodable(ToFrame(Failure(e), codec)) <==> '\n' !in ErrorText(e)
  {
    hide ErrorText, Utf8.Valid;
  }

  /**
    A frame that is no command, from a client with nothing unread: the client gets an error whose text is the
    first line of the complaint, what follows that line stays unread, and the connection is as before but for
    its log.
   */
  lemma BadFrameIsRefused<S>(g: Gate<S>, l: Link<S>, f: Frame, at: Moment)
    requires l.conn.mode.Normal? && l.unread == [] && ServerReader.Readable(f, 0)
    requires ParseCommand(f, g.env.codec).Err? && Utf8.Valid(ErrorText(ParseCommand(f, g.env.codec).error))
    ensures var (l', t) := Exchange(g, l, Encode(f), at);
            var text := "ERR " + ErrorText(ParseCommand(f, g.env.codec).error);
            && l'.conn == l.conn.(log := l.conn.log + [Sent(SimpleError(text))])
            && t == Took(RError(FirstLine(text)), LeftOver(text, [])) && l'.unread == t.rest
  {
    hide Exchange, Step, ReadValue, Encode, ParseCommand, ErrorText, FirstLine, LeftOver, Utf8.Valid;
    hide ServerReader.Readable;
    var text := "ERR " + ErrorText(ParseCommand(f, g.env.codec).error);
    FrameIsExchanged(g, l, f, at);
    BadFrameIsTold(g, l.conn, f, at, WORKING);
    Utf8.AsciiValid("ERR ");
    Utf8.ValidConcat("ERR ", ErrorText(ParseCommand(f, g.env.codec).error));
    var answer := Encode(SimpleError(text));
    assert [] + answer == answer && answer + [] == answer;
    ErrorTextIsTaken(text, []);
  }

  // ---- Whole conversations ----

  /** A client's call, any frame it may send instead, or other connections leaving the dispatcher in some state. */
  datatype Turn<+S> = Ask(q: Request, at: Moment) | Offer(frame: Frame, at: Moment) | Meanwhile(shared: State<S>)

  /** The frame sent in a turn. */
  function TurnFrame<S>(g: Gate<S>, turn: Turn<S>): Frame
    requires !turn.Meanwhile?
  {
    if turn.Ask? then RequestFrame(g, turn.q) else turn.frame
  }

  /** The server's side of a turn; what the client has read makes no difference to it. */
  function ServerNext<S>(g: Gate<S>, c: Conn<S>, turn: Turn<S>): Conn<S> {
    if turn.Meanwhile? then Step(g, c, Elsewhere(turn.shared))
    else Step(g, c, Incoming(TurnFrame(g, turn), turn.at.instant, turn.at.wall, WORKING))
  }

  function Next<S>(g: Gate<S>, l: Link<S>, turn: Turn<S>): Link<S> {
    if turn.Meanwhile? then Link(Step(g, l.conn, Elsewhere(turn.shared)), l.unread)
    else Exchange(g, l, Encode(TurnFrame(g, turn)), turn.at).0
  }

  function After<S>(g: Gate<S>, l: Link<S>, turns: seq<Turn<S>>): Link<S>
    decreases |turns|
  {
    if turns == [] then l else After(g, Next(g, l, turns[0]), turns[1..])
  }

  /** The server's answer in a turn. */
  function TurnAnswer<S>(g: Gate<S>, c: Conn<S>, turn: Turn<S>): Frame
    requires !turn.Meanwhile?
  {
    if turn.Ask? then VerdictFrame(g, c, turn.q, turn.at) else AnswerTo(g, c, turn.frame, turn.at)
  }

  /** What is sent can be read by the server in normal mode, and is answered by a frame Rust can hold. */
  predicate ProperTurn<S>(g: Gate<S>, c: Conn<S>, turn: Turn<S>) {
    !turn.Meanwhile? ==>
      && c.mode.Normal? && WellTyped(TurnAnswer(g, c, turn))
      && if turn.Ask? then Sendable(turn.q, g.env.codec) else ServerReader.Readable(turn.frame, 0)
  }

  predicate Proper<S>(g: Gate<S>, c: Conn<S>, turns: seq<Turn<S>>)
    decreases |turns|
  {
    turns != [] ==> ProperTurn(g, c, turns[0]) && Proper(g, ServerNext(g, c, turns[0]), turns[1..])
  }

  /** The client can decode every answer. */
  predicate AllDecodable<S>(g: Gate<S>, c: Conn<S>, turns: seq<Turn<S>>)
    decreases |turns|
  {
    turns != [] ==>
      && (!turns[0].Meanwhile? ==> Decodable(TurnAnswer(g, c, turns[0])))
      && AllDecodable(g, ServerNext(g, c, turns[0]), turns[1..])
  }

  /** The client gets the answer to what it sent in this turn, whole. */
  predicate TurnPaired<S>(g: Gate<S>, l: Link<S>, turn: Turn<S>)
    requires !turn.Meanwhile?
  {
    Exchange(g, l, Encode(TurnFrame(g, turn)), turn.at).1 == Took(Image(TurnAnswer(g, l.conn, turn)), [])
  }

  /** In every turn the client gets the answer to what it sent. */
  predicate AllPaired<S>(g: Gate<S>, l: Link<S>, turns: seq<Turn<S>>)
    decreases |turns|
  {
    turns != [] ==>
      && (!turns[0].Meanwhile? ==> TurnPaired(g, l, turns[0]))
      && AllPaired(g, Next(g, l, turns[0]), turns[1..])
  }

  lemma TurnIsAnswered<S>(g: Gate<S>, c: Conn<S>, turn: Turn<S>)
    requires !turn.Meanwhile? && ProperTurn(g, c, turn)
    ensures ServerReader.Readable(TurnFrame(g, turn), 0)
    ensures AnswerTo(g, c, TurnFrame(g, turn), turn.at) == TurnAnswer(g, c, turn)
  {
    hide AnswerTo, VerdictFrame, RequestFrame, WellTyped, Sendable, ServerReader.Readable;
    if turn.Ask? {
      RequestIsReadable(g, turn.q);
      RequestIsAnswered(g, c, turn.q, turn.at);
    }
  }

  lemma TurnIsPairedExactly<S>(g: Gate<S>, l: Link<S>, turn: Turn<S>)
    requires l.unread == [] && ProperTurn(g, l.conn, turn)
    ensures Next(g, l, turn).conn == ServerNext(g, l.conn, turn)
    ensures turn.Meanwhile? ==> Next(g, l, turn).unread == []
    ensures !turn.Meanwhile? ==>
              && (TurnPaired(g, l, turn) <==> Decodable(TurnAnswer(g, l.conn, turn)))
              && (TurnPaired(g, l, turn) ==> Next(g, l, turn).unread == [])
  {
    hide Exchange, Step, AnswerTo, Image, Decodable, WellTyped, Sendable, ServerReader.Readable, Encode, TurnAnswer;
    hide TurnFrame, ReadValue;
    if !turn.Meanwhile? {
      TurnIsAnswered(g, l.conn, turn);
      FrameIsExchanged(g, l, TurnFrame(g, turn), turn.at);
      ExchangeIsPairedExactly(g, l, TurnFrame(g, turn), turn.at);
    }
  }

  /**
    Pairing over a whole conversation, with frames that are no commands among the requests and other
    connections acting in between: starting with nothing unread, the client always gets the answer to what it
    sent if and only if it can decode every answer. In particular one error text with a newline in it spoils
    the pairing.
   */
  lemma {:induction false} AllPairedExactly<S>(g: Gate<S>, l: Link<S>, turns: seq<Turn<S>>)
    requires l.unread == [] && Proper(g, l.conn, turns)
    ensures AllPaired(g, l, turns) <==> AllDecodable(g, l.conn, turns)
    ensures AllPaired(g, l, turns) ==> After(g, l, turns).unread == []
    decreases |turns|
  {
    hide TurnPaired, ServerNext, Next, TurnAnswer, Decodable, ProperTurn;
    if turns != [] {
      TurnIsPairedExactly(g, l, turns[0]);
      if turns[0].Meanwhile? || TurnPaired(g, l, turns[0]) {
        AllPairedExactly(g, Next(g, l, turns[0]), turns[1..]);
      }
    }
  }

  // ---- What an unread rest does ----

  /** The rest of an error text after a line break and a minus sign is taken for the next reply. */
  lemma RestIsNextReply(head: Bytes, tail: Bytes, rest: Bytes)
    requires '\n' !in head && Utf8.Valid(head + "\n-" + tail)
    ensures ReadValue(Encode(SimpleError(head + "\n-" + tail)) + rest)
            == Took(RError(FirstLine(head + "\n-" + tail)), Encode(SimpleError(tail)) + rest)
  {
    hide ReadValue, FirstLine, Utf8.Valid, NewlineAt;
    var t := head + "\n-" + tail;
    ErrorTextIsTaken(t, rest);
    assert t[|head|] == '\n' && t[..|head|] == head;
    NewlineIs(t, |head|);
    assert t[|head| + 1..] == "-" + tail;
    assert Encode(SimpleError(tail)) == "-" + tail + CRLF;
  }
}
