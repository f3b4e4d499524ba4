/** A whole subscription: what the server pushes and what the remote store's reader makes of it. */
module Subscriptions {
  import opened Text
  import opened Frames
  import opened Commands
  import opened CommandParser
  import opened ClientReader
  import opened ClientCodec
  import opened ClientIO
  import opened ServerIO
  import opened Replies
  import opened PushEvents
  import opened Connection
  import opened Verdicts
  import opened ConnectionTraffic
  import ServerReader
  import Utf8

  // ---- The client's reader ----

  /** The server's notice that the subscription has ended. */
  predicate IsEnd(r: Response) {
    r.RArray? && |r.items| >= 2 && r.items[0] == RString("subscription") && r.items[1] == RString("closed")
  }

  /** The events in a stream of bytes, up to the end of the subscription or of what can be read. */
  function Heard(s: Bytes): seq<SubscriptionEvent>
    decreases |s|
  {
    match ReadValue(s)
    case Failed(_, _) => []
    case Took(r, rest) =>
      if IsEnd(r) then []
      else
        match ParsePush(r)
        case Some(e) => [e] + Heard(rest)
        case None => Heard(rest)
  }

  /** The background task of a subscription. */
  method Listen(r: Stream) returns (events: seq<SubscriptionEvent>)
    modifies r
    ensures events == Heard(old(r.rest))
  {
    hide ReadValue, ParsePush, IsEnd;
    events := [];
    var response := ReceiveValue(r);
    assert [] + Heard(old(r.rest)) == Heard(old(r.rest));
    while response.Ok? && !IsEnd(response.value)
      invariant response.Ok? ==> |r.rest| <= |old(r.rest)|
      invariant Heard(old(r.rest)) == events + HeardFrom(response, r.rest)
      decreases if response.Ok? then |r.rest| + 1 else 0
    {
      var event := ParsePush(response.value);
      ghost var more := Heard(r.rest);
      if event.Some? {
        assert events + ([event.value] + more) == (events + [event.value]) + more;
        events := events + [event.value];
      }
      response := ReceiveValue(r);
    }
    assert events + [] == events;
  }

  /** What is heard from a reply just read and the bytes after it. */
  ghost function HeardFrom(response: Result<Response, Fault>, rest: Bytes): seq<SubscriptionEvent> {
    match response
    case Err(_) => []
    case Ok(r) =>
      if IsEnd(r) then []
      else
        match ParsePush(r)
        case Some(e) => [e] + Heard(rest)
        case None => Heard(rest)
  }

  function HeardIn(rs: seq<Response>): seq<SubscriptionEvent> {
    if rs == [] || IsEnd(rs[0]) then []
    else
      match ParsePush(rs[0])
      case Some(e) => [e] + HeardIn(rs[1..])
      case None => HeardIn(rs[1..])
  }

  lemma {:induction false} FramesAreHeard(frames: seq<Frame>)
    requires DecodableItems(frames)
    ensures Heard(EncodeItems(frames)) == HeardIn(ImageItems(frames))
    decreases |frames|
  {
    hide ReadValue, Encode, Image, Decodable, IsEnd, ParsePush;
    if frames == [] {
      NothingIsRead();
    } else {
      FrameIsTaken(frames[0], EncodeItems(frames[1..]));
      FramesAreHeard(frames[1..]);
      assert ImageItems(frames)[1..] == ImageItems(frames[1..]);
    }
  }

  lemma NothingIsRead()
    ensures ReadValue([]).Failed?
  {
  }

  // ---- The server's frames ----

  /** The connection is subscribed before each input. */
  predicate StreamingRun<S>(g: Gate<S>, c: Conn<S>, inputs: seq<Input<S>>)
    decreases |inputs|
  {
    inputs != [] ==> c.mode.Streaming? && StreamingRun(g, Step(g, c, inputs[0]), inputs[1..])
  }

  // ---- Events there and back ----

  /** The events that were written, in order. */
  function Pushed<S>(inputs: seq<Input<S>>): seq<SubscriptionEvent> {
    if inputs == [] then []
    else (if inputs[0].Happened? && inputs[0].io.write then [inputs[0].event] else []) + Pushed(inputs[1..])
  }

  predicate SoundEvents<S>(inputs: seq<Input<S>>) {
    forall i :: 0 <= i < |inputs| && inputs[i].Happened? ==> Sound(inputs[i].event)
  }

  function Lossied(es: seq<SubscriptionEvent>): (r: seq<SubscriptionEvent>)
    ensures |r| == |es| && forall i :: 0 <= i < |es| ==> r[i] == es[i].(key := Utf8.Lossy(es[i].key))
  {
    seq(|es|, i requires 0 <= i < |es| => es[i].(key := Utf8.Lossy(es[i].key)))
  }

  predicate KeysAreUtf8(es: seq<SubscriptionEvent>) {
    forall i :: 0 <= i < |es| ==> Utf8.Valid(es[i].key)
  }

  lemma LossiedExactly(es: seq<SubscriptionEvent>)
    ensures Lossied(es) == es <==> KeysAreUtf8(es)
  {
    hide Utf8.Valid, Utf8.Lossy;
    forall i | 0 <= i < |es|
      ensures Lossied(es)[i] == es[i] <==> Utf8.Valid(es[i].key)
    {
      Utf8.LossyExact(es[i].key);
    }
    if Lossied(es) == es {
      assert forall i :: 0 <= i < |es| ==> Lossied(es)[i] == es[i];
    }
  }

  lemma ReplyIsDecodable<S>(g: Gate<S>, cmd: Command)
    ensures Decodable(StreamingReply(g, cmd))
    ensures var r := Image(StreamingReply(g, cmd)); !IsEnd(r) && ParsePush(r).None?
  {
    hide Decodable;
    var codec := g.env.codec;
    assert OK_FIELDS[0] == ("status", VString("OK")) && FitsField(("status", VString("OK")), codec);
    assert |PONG| == 2 && PONG[0] == ("status", VString("OK")) && PONG[1] == ("message", VString("PONG"));
    assert FitsField(("message", VString("PONG")), codec);
    FieldsAreDecodable(OK_FIELDS, codec);
    FieldsAreDecodable(PONG, codec);
    ErrorLineIsDecodable();
  }

  lemma ErrorLineIsDecodable()
    ensures Decodable(SimpleError("ERR only UNSUBSCRIBE and " + "PING allowed during " + "subscription"))
  {
    hide ServerReader.OneLine;
    ServerReader.PlainLine("ERR only UNSUBSCRIBE and ");
    ServerReader.PlainLine("PING allowed during ");
    ServerReader.PlainLine("subscription");
    ServerReader.JoinedLine("ERR only UNSUBSCRIBE and ", "PING allowed during ");
    ServerReader.JoinedLine("ERR only UNSUBSCRIBE and " + "PING allowed during ", "subscription");
  }

  lemma EventIsHeard(e: SubscriptionEvent)
    requires Sound(e)
    ensures Decodable(PushFrame(e)) && !IsEnd(Image(PushFrame(e)))
    ensures ParsePush(Image(PushFrame(e))) == Some(e.(key := Utf8.Lossy(e.key)))
  {
    hide Decodable, Utf8.Valid, Utf8.Lossy, ReadValue, Encode, PushFrame, ParsePush, Image;
    PushFrameIsDecodable(e);
    PushImage(e);
    PushSurvivesExactly(e, []);
    FrameIsTaken(PushFrame(e), []);
  }

  lemma PairIsDecodable(a: Bytes, b: Bytes)
    requires ServerReader.OneLine(a) && ServerReader.OneLine(b)
    ensures var f := Push([SimpleString(a), SimpleString(b)]);
            Decodable(f) && Image(f) == RArray([RString(a), RString(b)])
  {
    hide ServerReader.OneLine;
    var items := [SimpleString(a), SimpleString(b)];
    assert Decodable(items[0]) && Decodable(items[1]);
    assert ImageItems(items) == [RString(a), RString(b)];
  }

  lemma EndIsHeard()
    ensures Decodable(SUBSCRIPTION_CLOSED) && IsEnd(Image(SUBSCRIPTION_CLOSED))
  {
    hide Utf8.Valid, Decodable, Image;
    Utf8.AsciiValid("subscription");
    Utf8.AsciiValid("closed");
    PairIsDecodable("subscription", "closed");
  }

  lemma HeardCons(f: Frame, more: seq<Frame>)
    ensures DecodableItems([f] + more) <==> Decodable(f) && DecodableItems(more)
    ensures HeardIn(ImageItems([f] + more)) ==
            if IsEnd(Image(f)) then []
            else
              match ParsePush(Image(f))
              case Some(e) => [e] + HeardIn(ImageItems(more))
              case None => HeardIn(ImageItems(more))
  {
    hide Decodable, Image, IsEnd, ParsePush;
    var all := [f] + more;
    assert all[0] == f && forall i :: 0 <= i < |more| ==> all[i + 1] == more[i];
    assert ImageItems(all)[0] == Image(f) && ImageItems(all)[1..] == ImageItems(more);
  }

  lemma NoFrames()
    ensures DecodableItems([]) && HeardIn(ImageItems([])) == [] && Lossied([]) == []
  {
  }

  lemma LossiedCons(e: SubscriptionEvent, es: seq<SubscriptionEvent>)
    ensures Lossied([e] + es) == [e.(key := Utf8.Lossy(e.key))] + Lossied(es)
  {
  }

  lemma {:induction false} FramesAreEvents<S>(g: Gate<S>, c: Conn<S>, inputs: seq<Input<S>>)
    requires StreamingRun(g, c, inputs) && SoundEvents(inputs)
    ensures DecodableItems(AllDue(g, c, inputs))
    ensures HeardIn(ImageItems(AllDue(g, c, inputs))) == Lossied(Pushed(inputs))
    decreases |inputs|
  {
    hide Step, DecodableItems, ImageItems, HeardIn, IsEnd, ParsePush, PushFrame, StreamingReply, ParseCommand, Lossied;
    hide Sound;
    if inputs == [] {
      NoFrames();
    } else {
      var i, others := inputs[0], inputs[1..];
      var next := Step(g, c, i);
      var more := AllDue(g, next, others);
      FramesAreEvents(g, next, others);
      assert [] + more == more && [] + Pushed(others) == Pushed(others);
      match i
      case Happened(e, io) =>
        if io.write {
          EventIsHeard(e);
          HeardCons(PushFrame(e), more);
          LossiedCons(e, Pushed(others));
        }
      case Ended(io) =>
        EndIsLast(g, c, i);
        if io.write {
          EndIsHeard();
          HeardCons(SUBSCRIPTION_CLOSED, more);
        }
      case Incoming(frame, _, _, io) =>
        var parsed := ParseCommand(frame, g.env.codec);
        if parsed.Ok? && io.write {
          ReplyIsDecodable(g, parsed.value);
          HeardCons(StreamingReply(g, parsed.value), more);
        }
      case _ =>
    }
  }

  lemma EndIsLast<S>(g: Gate<S>, c: Conn<S>, i: Input<S>)
    requires i.Ended? && c.mode.Streaming?
    ensures Step(g, c, i).mode.Normal?
  {
  }

  /**
    Over a whole subscription, whatever commands the client sends meanwhile and whatever else happens, the
    server writes exactly the frames that are due, and the remote store's reader hears from those bytes the
    events that were pushed, all of them, in order and nothing else, exactly when all their keys are UTF-8.
   */
  lemma EventsAreHeardExactly<S>(g: Gate<S>, c: Conn<S>, inputs: seq<Input<S>>)
    requires StreamingRun(g, c, inputs) && SoundEvents(inputs)
    ensures Outputs(Run(g, c, inputs).log) == Outputs(c.log) + AllDue(g, c, inputs)
    ensures Heard(EncodeItems(AllDue(g, c, inputs))) == Lossied(Pushed(inputs))
    ensures Heard(EncodeItems(AllDue(g, c, inputs))) == Pushed(inputs) <==> KeysAreUtf8(Pushed(inputs))
  {
    hide Run, Outputs, AllDue, Heard, EncodeItems, HeardIn, StreamingRun, Pushed, Lossied, KeysAreUtf8;
    RunSendsWhatIsDue(g, c, inputs);
    FramesAreEvents(g, c, inputs);
    FramesAreHeard(AllDue(g, c, inputs));
    LossiedExactly(Pushed(inputs));
  }
}
