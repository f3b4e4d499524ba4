/** Requests sent ahead: many in one stream of bytes, answered in order by as many replies. */
module Batches {
  import opened Text
  import opened Frames
  import opened ClientReader
  import opened ClientCodec
  import opened Connection
  import opened Verdicts
  import opened ConnectionTraffic
  import opened Calls
  import opened Pairing
  import ServerReader
  import ServerCodec

  /** What is sent in a conversation, in order. */
  function Asked<S>(g: Gate<S>, turns: seq<Turn<S>>): seq<Frame> {
    if turns == [] then []
    else (if turns[0].Meanwhile? then [] else [TurnFrame(g, turns[0])]) + Asked(g, turns[1..])
  }

  /** What reaches the connection, the frames being read from one stream. */
  function Inputs<S>(g: Gate<S>, turns: seq<Turn<S>>): seq<Input<S>> {
    if turns == [] then [] else [TurnInput(g, turns[0])] + Inputs(g, turns[1..])
  }

  function TurnInput<S>(g: Gate<S>, turn: Turn<S>): Input<S> {
    if turn.Meanwhile? then Elsewhere(turn.shared)
    else Incoming(TurnFrame(g, turn), turn.at.instant, turn.at.wall, WORKING)
  }

  /** The server's answers, in order. */
  function Answers<S>(g: Gate<S>, c: Conn<S>, turns: seq<Turn<S>>): seq<Frame>
    decreases |turns|
  {
    if turns == [] then []
    else
      (if turns[0].Meanwhile? then [] else [TurnAnswer(g, c, turns[0])])
      + Answers(g, ServerNext(g, c, turns[0]), turns[1..])
  }

  lemma {:induction false} AskedAreReadable<S>(g: Gate<S>, c: Conn<S>, turns: seq<Turn<S>>)
    requires Proper(g, c, turns)
    ensures forall i :: 0 <= i < |Asked(g, turns)| ==> ServerReader.Readable(Asked(g, turns)[i], 0)
    ensures |Asked(g, turns)| == |Answers(g, c, turns)|
    decreases |turns|
  {
    hide ServerNext, TurnAnswer, TurnFrame, ProperTurn, ServerReader.Readable, AnswerTo;
    if turns != [] {
      if !turns[0].Meanwhile? {
        TurnIsAnswered(g, c, turns[0]);
      }
      AskedAreReadable(g, ServerNext(g, c, turns[0]), turns[1..]);
    }
  }

  /** One turn: the step of the connection, and what is due. */
  lemma TurnIsDue<S>(g: Gate<S>, c: Conn<S>, turn: Turn<S>)
    requires ProperTurn(g, c, turn)
    ensures Step(g, c, TurnInput(g, turn)) == ServerNext(g, c, turn)
    ensures Due(g, c, TurnInput(g, turn)) == if turn.Meanwhile? then [] else [TurnAnswer(g, c, turn)]
  {
    hide Step, TurnAnswer, TurnFrame, AnswerTo, ServerReader.Readable;
    if !turn.Meanwhile? {
      ProperIsNormal(g, c, turn);
      hide ProperTurn;
      TurnIsAnswered(g, c, turn);
    }
  }

  lemma ProperIsNormal<S>(g: Gate<S>, c: Conn<S>, turn: Turn<S>)
    requires ProperTurn(g, c, turn) && !turn.Meanwhile?
    ensures c.mode.Normal?
  {
  }

  lemma {:induction false} AnswersAreDue<S>(g: Gate<S>, c: Conn<S>, turns: seq<Turn<S>>)
    requires Proper(g, c, turns)
    ensures AllDue(g, c, Inputs(g, turns)) == Answers(g, c, turns)
    decreases |turns|
  {
    hide Step, Due, TurnAnswer, ProperTurn, ServerNext, TurnInput;
    if turns != [] {
      TurnIsDue(g, c, turns[0]);
      assert Inputs(g, turns)[1..] == Inputs(g, turns[1..]);
      AnswersAreDue(g, ServerNext(g, c, turns[0]), turns[1..]);
    }
  }

  lemma {:induction false} AnswersAreDecodable<S>(g: Gate<S>, c: Conn<S>, turns: seq<Turn<S>>)
    requires AllDecodable(g, c, turns)
    ensures DecodableItems(Answers(g, c, turns))
    decreases |turns|
  {
    hide ServerNext, TurnAnswer, Decodable;
    if turns != [] {
      AnswersAreDecodable(g, ServerNext(g, c, turns[0]), turns[1..]);
    }
  }

  /**
    Requests sent ahead in one stream, frames that are no commands among them and other connections acting in
    between: the server reads back exactly the frames sent, writes one frame for each, the answers in order,
    and if they can be decoded the client reads one reply for each, in order, and stops exactly at what
    follows.
   */
  lemma BatchIsAnsweredInOrder<S>(g: Gate<S>, c: Conn<S>, turns: seq<Turn<S>>, rest: Bytes)
    requires Proper(g, c, turns) && AllDecodable(g, c, turns)
    ensures var answers := Answers(g, c, turns);
            && ServerCodec.ReadStream(EncodeItems(Asked(g, turns))) == Ok(Asked(g, turns))
            && |answers| == |Asked(g, turns)|
            && Outputs(Run(g, c, Inputs(g, turns)).log) == Outputs(c.log) + answers
            && ReadValues(EncodeItems(answers) + rest, |answers|) == Took(ImageItems(answers), rest)
  {
    hide Proper, AllDecodable, Run, Outputs, Answers, Asked, Inputs, EncodeItems, ReadValues, ImageItems, AllDue;
    AskedAreReadable(g, c, turns);
    ServerCodec.StreamIsRead(Asked(g, turns));
    RunSendsWhatIsDue(g, c, Inputs(g, turns));
    AnswersAreDue(g, c, turns);
    AnswersAreDecodable(g, c, turns);
    ItemsAreTaken(Answers(g, c, turns), rest);
  }
}
