/** Subscription events on the wire, and the event filter of a subscription. */
module PushEvents {
  import opened Text
  import opened Decimal
  import opened Frames
  import opened ClientReader
  import opened ClientCodec
  import opened Requests
  import opened OptionLists
  import Utf8

  datatype SubscriptionEvent = SubscriptionEvent(event: EventType, namespace: Bytes, key: Bytes, version: U64,
      actor: Bytes, timestamp: U64)

  /** `subscription_event_to_push_frame`. */
  function PushFrame(e: SubscriptionEvent): Frame {
    Push([SimpleString("subscribe"), SimpleString(EventText(e.event)), BulkString(e.namespace), BulkString(e.key),
          Integer(AsI64(e.version)), BulkString(e.actor), Integer(AsI64(e.timestamp))])
  }

  function EventOf(text: Bytes): Option<EventType> {
    if text == "put" then Some(PutEvent) else if text == "delete" then Some(DeleteEvent) else None
  }

  /** `parse_push_frame`. */
  function ParsePush(r: Response): Option<SubscriptionEvent> {
    if !r.RArray? || |r.items| < 7 then None
    else
      var i := r.items;
      if !(i[0].RString? && i[0].text == "subscribe" && i[1].RString?) then None
      else
        var event := EventOf(i[1].text);
        if event.None? || !i[2].RString? || !i[3].RString? || !i[4].RInteger? || !i[5].RString?
            || !i[6].RInteger? then None
        else Some(SubscriptionEvent(event.value, i[2].text, i[3].text, AsU64(i[4].n), i[5].text, AsU64(i[6].n)))
  }

  /** Lengths below 2^63, and strings that are UTF-8 as Rust strings are. */
  predicate Sound(e: SubscriptionEvent) {
    && Utf8.Valid(e.namespace) && Utf8.Valid(e.actor)
    && |e.namespace| < TWO_TO_THE_63 && |e.key| < TWO_TO_THE_63 && |e.actor| < TWO_TO_THE_63
  }

  lemma PushFrameIsDecodable(e: SubscriptionEvent)
    requires Sound(e)
    ensures Decodable(PushFrame(e))
  {
    hide Utf8.Valid;
    Utf8.AsciiValid("subscribe");
    Utf8.AsciiValid(EventText(e.event));
    var items := PushFrame(e).items;
    assert Decodable(items[0]) && Decodable(items[1]);
    assert Decodable(items[2]) && Decodable(items[3]) && Decodable(items[5]);
    assert Decodable(items[4]) && Decodable(items[6]);
  }

  lemma PushImage(e: SubscriptionEvent)
    requires Sound(e)
    ensures Image(PushFrame(e)) ==
            RArray([RString("subscribe"), RString(EventText(e.event)), RString(e.namespace), RString(Utf8.Lossy(e.key)),
                    RInteger(AsI64(e.version)), RString(e.actor), RInteger(AsI64(e.timestamp))])
  {
    hide Utf8.Valid, Utf8.Lossy;
    Utf8.LossyKeepsValid(e.namespace);
    Utf8.LossyKeepsValid(e.actor);
    var items := PushFrame(e).items;
    assert |ImageItems(items)| == 7;
    assert ImageItems(items) ==
           [Image(items[0]), Image(items[1]), Image(items[2]), Image(items[3]), Image(items[4]), Image(items[5]),
               Image(items[6])];
  }

  /**
    A pushed event, followed by anything, is received as the same event with its key made UTF-8; it is
    the identical event exactly when the key was UTF-8.
   */
  lemma PushSurvivesExactly(e: SubscriptionEvent, rest: Bytes)
    requires Sound(e)
    ensures var t := ReadValue(Encode(PushFrame(e)) + rest);
            && t.Took? && t.rest == rest
            && ParsePush(t.value) == Some(e.(key := Utf8.Lossy(e.key)))
            && (ParsePush(t.value) == Some(e) <==> Utf8.Valid(e.key))
  {
    hide ReadValue, Encode, Image, Decodable, PushFrame, Sound, Utf8.Valid, Utf8.Lossy, EventText;
    PushFrameIsDecodable(e);
    FrameIsTaken(PushFrame(e), rest);
    PushImage(e);
    assert EventOf(EventText(e.event)) == Some(e.event) by {
      EventTextIsKnown(e.event);
    }
    Utf8.LossyExact(e.key);
  }

  lemma EventTextIsKnown(e: EventType)
    ensures EventOf(EventText(e)) == Some(e)
  {
  }

  // ---- Filters ----

  function LowerByte(c: Byte): Byte {
    if 'A' <= c <= 'Z' then (c as int + 32) as char else c
  }

  function Lower(s: Bytes): (r: Bytes)
    ensures |r| == |s|
  {
    seq(|s|, i requires 0 <= i < |s| => LowerByte(s[i]))
  }

  /** The event types the server makes of a SUBSCRIBE command's event names; unknown names are dropped. */
  function EventFilter(names: seq<Bytes>): seq<EventType> {
    if names == [] then []
    else
      match EventOf(Lower(names[0]))
      case Some(e) => [e] + EventFilter(names[1..])
      case None => EventFilter(names[1..])
  }

  lemma {:induction false} JoinedHasBar(events: seq<EventType>)
    requires |events| >= 2
    ensures '|' in JoinEvents(events)
  {
    var s, head := JoinEvents(events), EventText(events[0]);
    assert s == head + "|" + JoinEvents(events[1..]);
    assert s[|head|] == '|';
  }

  lemma BarIsNoEvent(s: Bytes)
    requires '|' in s
    ensures EventOf(Lower(Upper(s))) == None
  {
    var i :| 0 <= i < |s| && s[i] == '|';
    assert Upper(s)[i] == '|' && Lower(Upper(s))[i] == '|';
    assert '|' in Lower(Upper(s));
  }

  lemma SingleEventIsKnown(e: EventType)
    ensures EventOf(Lower(Upper(EventText(e)))) == Some(e)
  {
    var s := EventText(e);
    assert Lower(Upper(s)) == s;
  }

  /**
    The client's filter reaches the server unchanged exactly when it names at most one event type: two
    or more are joined into one name, which the server drops.
   */
  lemma {:induction false} FilterSurvivesExactly(ns: Bytes, key: Option<Bytes>, events: seq<EventType>)
    ensures EventFilter(Meaning(AskSubscribe(ns, key, events)).events) == events <==> |events| <= 1
  {
    hide Upper, Lower, JoinEvents, EventOf;
    var names := Meaning(AskSubscribe(ns, key, events)).events;
    if events == [] {
    } else {
      var joined := JoinEvents(events);
      assert names == [Upper(joined)] && names[1..] == [];
      if |events| == 1 {
        SingleJoin(events);
        SingleEventIsKnown(events[0]);
        assert events == [events[0]];
      } else {
        JoinedHasBar(events);
        BarIsNoEvent(joined);
      }
    }
  }

  lemma SingleJoin(events: seq<EventType>)
    requires |events| == 1
    ensures JoinEvents(events) == EventText(events[0])
  {
  }

  // ---- Names of events ----

  lemma LowerExactly(s: Bytes, word: Bytes, small: Bytes)
    requires Capital(word) && small == Lower(word)
    ensures Lower(s) == small <==> IsWord(s, word)
  {
    if IsWord(s, word) {
      forall i | 0 <= i < |s|
        ensures Lower(s)[i] == small[i]
      {
        assert IsLetter(s[i], word[i]);
      }
    }
    if Lower(s) == small {
      forall i | 0 <= i < |s|
        ensures IsLetter(s[i], word[i])
      {
        assert Lower(s)[i] == small[i] && small[i] == LowerByte(word[i]);
      }
    }
  }

  /** One name, in any letter case: PUT, DELETE, or unknown and dropped. */
  lemma NameIsRead(name: Bytes)
    ensures EventFilter([name]) ==
            if IsWord(name, "PUT") then [PutEvent] else if IsWord(name, "DELETE") then [DeleteEvent] else []
  {
    hide IsWord, Lower;
    assert [name][1..] == [];
    LowerWords();
    LowerExactly(name, "PUT", "put");
    LowerExactly(name, "DELETE", "delete");
  }

  lemma LowerWords()
    ensures Lower("PUT") == "put" && Lower("DELETE") == "delete"
  {
  }

  /** A list of names is read name by name, in order. */
  lemma {:induction false} NamesAreRead(a: seq<Bytes>, b: seq<Bytes>)
    ensures EventFilter(a + b) == EventFilter(a) + EventFilter(b)
    decreases |a|
  {
    hide Lower, EventOf;
    if a == [] {
      assert a + b == b;
    } else {
      assert (a + b)[0] == a[0] && (a + b)[1..] == a[1..] + b;
      NamesAreRead(a[1..], b);
    }
  }
}
