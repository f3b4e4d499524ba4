/** The client reads what the server writes, and what it writes itself. */
module ClientCodec {
  import opened Text
  import opened Decimal
  import opened Frames
  import opened ClientReader
  import ServerReader
  import Utf8

  /** Frames the client decodes: one-line texts, lengths that fit `i64`, any depth. */
  predicate Decodable(f: Frame) {
    match f
    case SimpleString(t) => ServerReader.OneLine(t)
    case SimpleError(t) => ServerReader.OneLine(t)
    case BulkString(d) => |d| < TWO_TO_THE_63
    case Array(items) => |items| < TWO_TO_THE_63 && DecodableItems(items)
    case Push(items) => |items| < TWO_TO_THE_63 && DecodableItems(items)
    case Map(pairs) => |pairs| < TWO_TO_THE_63 && DecodablePairs(pairs)
    case _ => true
  }

  predicate DecodableItems(items: seq<Frame>) {
    forall i :: 0 <= i < |items| ==> Decodable(items[i])
  }

  predicate DecodablePairs(pairs: seq<(Frame, Frame)>) {
    forall i :: 0 <= i < |pairs| ==> DecodablePair(pairs[i])
  }

  predicate DecodablePair(p: (Frame, Frame)) {
    Decodable(p.0) && Decodable(p.1)
  }

  /** The client's view of a frame: push becomes array, both string kinds become string. */
  function Image(f: Frame): Response {
    match f
    case SimpleString(t) => RString(t)
    case SimpleError(t) => RError(t)
    case Integer(n) => RInteger(n)
    case BulkString(d) => RString(Utf8.Lossy(d))
    case Array(items) => RArray(ImageItems(items))
    case Push(items) => RArray(ImageItems(items))
    case Map(pairs) => RMap(ImagePairs(pairs))
    case Null => RNull
  }

  function ImageItems(items: seq<Frame>): (r: seq<Response>)
    ensures |r| == |items|
    ensures forall i :: 0 <= i < |items| ==> r[i] == Image(items[i])
  {
    if items == [] then [] else [Image(items[0])] + ImageItems(items[1..])
  }

  function ImagePairs(pairs: seq<(Frame, Frame)>): (r: seq<(Response, Response)>)
    ensures |r| == |pairs|
    ensures forall i :: 0 <= i < |pairs| ==> r[i] == ImagePair(pairs[i])
  {
    if pairs == [] then [] else [ImagePair(pairs[0])] + ImagePairs(pairs[1..])
  }

  function ImagePair(p: (Frame, Frame)): (Response, Response) {
    (Image(p.0), Image(p.1))
  }

  // ---- One printed line ----

  lemma LineIsTaken(tag: Byte, payload: Bytes, rest: Bytes)
    requires ServerReader.OneLine(payload) && tag as int < 0x80 && tag != '\n'
    ensures TakeLine(Line(tag, payload) + rest) == Took([tag] + payload, rest)
  {
    var t := [tag] + payload;
    var s := Line(tag, payload) + rest;
    assert s == t + CRLF + rest;
    NewlineAfterText(t, rest);
    assert s[..|t| + 2] == t + CRLF;
    Utf8.ValidConcat([tag], payload);
    Utf8.ValidConcat(t, CRLF);
    Utf8.AsciiValid(CRLF);
    assert s[..|t|] == t && s[|t|] == '\r' && s[|t| + 2..] == rest;
  }

  lemma NumberLine(tag: Byte, n: I64, rest: Bytes, fault: Fault)
    requires tag as int < 0x80 && tag != '\n'
    ensures TakeLine(Line(tag, PrintInt(n)) + rest) == Took([tag] + PrintInt(n), rest)
    ensures TakeLength(PrintInt(n), rest, fault) == Took(n, rest)
  {
    hide TakeLine, ParseI64;
    PrintIsText(n);
    LineIsTaken(tag, PrintInt(n), rest);
    ParsePrintI64(n);
  }

  lemma LeafAfterLine(tag: Byte, payload: Bytes, s: Bytes, rest: Bytes)
    requires tag != '*' && tag != '>' && tag != '~' && tag != '%'
    requires TakeLine(s) == Took([tag] + payload, rest)
    ensures ReadValue(s) == LeafValue(tag, payload, rest)
  {
    hide TakeLine, LeafValue, ReadValues, ReadEntries;
    assert ([tag] + payload)[1..] == payload;
  }

  lemma BulkIsTaken(d: Bytes, rest: Bytes)
    requires |d| < TWO_TO_THE_63
    ensures ReadValue(Encode(BulkString(d)) + rest) == Took(RString(Utf8.Lossy(d)), rest)
  {
    hide TakeLine, ReadValue, TakeLength;
    var body := d + CRLF + rest;
    NumberLine('$', |d|, body, BadBulkLength);
    LeafAfterLine('$', PrintInt(|d|), Line('$', PrintInt(|d|)) + body, body);
    assert Encode(BulkString(d)) + rest == Line('$', PrintInt(|d|)) + body;
    assert body[..|d|] == d && body[|d| + 2..] == rest;
  }

  lemma LeafIsTaken(f: Frame, rest: Bytes)
    requires IsLeaf(f) && Decodable(f)
    ensures ReadValue(Encode(f) + rest) == Took(Image(f), rest)
  {
    hide TakeLine, ReadValue, TakeLength;
    match f
    case SimpleString(t) =>
      LineIsTaken('+', t, rest);
      LeafAfterLine('+', t, Line('+', t) + rest, rest);
    case SimpleError(t) =>
      LineIsTaken('-', t, rest);
      LeafAfterLine('-', t, Line('-', t) + rest, rest);
    case Integer(n) =>
      NumberLine(':', n, rest, BadInteger);
      LeafAfterLine(':', PrintInt(n), Line(':', PrintInt(n)) + rest, rest);
    case BulkString(d) =>
      BulkIsTaken(d, rest);
    case Null =>
      LineIsTaken('_', [], rest);
      LeafAfterLine('_', [], Line('_', []) + rest, rest);
      assert Line('_', []) == Encode(f);
  }

  // ---- Collections ----

  /** Once the header line is consumed, the items decide the result. */
  lemma ArrayAfterLine(tag: Byte, s: Bytes, count: nat, body: Bytes, items: seq<Response>, rest: Bytes)
    requires tag == '*' || tag == '>'
    requires count < TWO_TO_THE_63
    requires TakeLine(s) == Took([tag] + PrintInt(count), body)
    requires forall fault :: TakeLength(PrintInt(count), body, fault) == Took(count, body)
    requires ReadValues(body, count) == Took(items, rest)
    ensures ReadValue(s) == Took(RArray(items), rest)
  {
    hide TakeLine, TakeLength, ReadValues, ReadEntries, LeafValue;
    assert ([tag] + PrintInt(count))[1..] == PrintInt(count);
  }

  lemma MapAfterLine(s: Bytes, count: nat, body: Bytes, entries: seq<(Response, Response)>, rest: Bytes)
    requires count < TWO_TO_THE_63
    requires TakeLine(s) == Took(['%'] + PrintInt(count), body)
    requires TakeLength(PrintInt(count), body, BadMapLength) == Took(count, body)
    requires ReadEntries(body, count) == Took(entries, rest)
    ensures ReadValue(s) == Took(RMap(entries), rest)
  {
    hide TakeLine, TakeLength, ReadValues, ReadEntries, LeafValue;
    assert (['%'] + PrintInt(count))[1..] == PrintInt(count);
  }

  lemma {:induction false} FrameIsTaken(f: Frame, rest: Bytes)
    requires Decodable(f)
    ensures ReadValue(Encode(f) + rest) == Took(Image(f), rest)
    decreases f
  {
    hide ReadValue, ReadValues, ReadEntries, TakeLine, TakeLength, Line, PrintInt, EncodeItems, EncodePairs;
    match f
    case Array(items) =>
      CollectionIsTaken('*', items, rest);
      assert Encode(f) + rest == Line('*', PrintInt(|items|)) + (EncodeItems(items) + rest);
    case Push(items) =>
      CollectionIsTaken('>', items, rest);
      assert Encode(f) + rest == Line('>', PrintInt(|items|)) + (EncodeItems(items) + rest);
    case Map(pairs) =>
      var body := EncodePairs(pairs) + rest;
      var s := Line('%', PrintInt(|pairs|)) + body;
      NumberLine('%', |pairs|, body, BadMapLength);
      PairsAreTaken(pairs, rest);
      MapAfterLine(s, |pairs|, body, ImagePairs(pairs), rest);
      assert Encode(f) + rest == s;
    case _ =>
      LeafIsTaken(f, rest);
  }

  lemma {:induction false} CollectionIsTaken(tag: Byte, items: seq<Frame>, rest: Bytes)
    requires tag == '*' || tag == '>'
    requires |items| < TWO_TO_THE_63 && DecodableItems(items)
    ensures ReadValue(Line(tag, PrintInt(|items|)) + (EncodeItems(items) + rest))
            == Took(RArray(ImageItems(items)), rest)
    decreases items, 1
  {
    hide ReadValue, ReadValues, TakeLine, TakeLength;
    var body := EncodeItems(items) + rest;
    var s := Line(tag, PrintInt(|items|)) + body;
    forall fault
      ensures TakeLength(PrintInt(|items|), body, fault) == Took(|items|, body)
    {
      NumberLine(tag, |items|, body, fault);
    }
    NumberLine(tag, |items|, body, BadArrayLength);
    ItemsAreTaken(items, rest);
    ArrayAfterLine(tag, s, |items|, body, ImageItems(items), rest);
  }

  /** Frames written back to back are received in the same order, whatever follows them. */
  lemma {:induction false} ItemsAreTaken(items: seq<Frame>, rest: Bytes)
    requires DecodableItems(items)
    ensures ReadValues(EncodeItems(items) + rest, |items|) == Took(ImageItems(items), rest)
    decreases items, 0
  {
    hide ReadValue, Encode, Image;
    if items == [] {
      assert EncodeItems(items) + rest == rest;
    } else {
      var tail := EncodeItems(items[1..]) + rest;
      assert EncodeItems(items) + rest == Encode(items[0]) + tail;
      FrameIsTaken(items[0], tail);
      ItemsAreTaken(items[1..], rest);
    }
  }

  lemma {:induction false} PairIsTaken(p: (Frame, Frame), rest: Bytes)
    requires DecodablePair(p)
    ensures ReadValue(EncodePair(p) + rest) == Took(Image(p.0), Encode(p.1) + rest)
    ensures ReadValue(Encode(p.1) + rest) == Took(Image(p.1), rest)
    decreases p
  {
    hide ReadValue, Encode, Image;
    assert EncodePair(p) + rest == Encode(p.0) + (Encode(p.1) + rest);
    FrameIsTaken(p.0, Encode(p.1) + rest);
    FrameIsTaken(p.1, rest);
  }

  lemma {:induction false} PairsAreTaken(pairs: seq<(Frame, Frame)>, rest: Bytes)
    requires DecodablePairs(pairs)
    ensures ReadEntries(EncodePairs(pairs) + rest, |pairs|) == Took(ImagePairs(pairs), rest)
    decreases pairs
  {
    hide ReadValue, Encode, Image, EncodePair;
    if pairs == [] {
      assert EncodePairs(pairs) + rest == rest;
    } else {
      var tail := EncodePairs(pairs[1..]) + rest;
      assert EncodePairs(pairs) + rest == EncodePair(pairs[0]) + tail;
      PairIsTaken(pairs[0], tail);
      PairsAreTaken(pairs[1..], rest);
    }
  }

  // ---- Only one-line texts survive ----

  /** What Rust's types guarantee of a frame: UTF-8 texts and lengths below 2^63. */
  predicate WellTyped(f: Frame) {
    match f
    case SimpleString(t) => Utf8.Valid(t)
    case SimpleError(t) => Utf8.Valid(t)
    case BulkString(d) => |d| < TWO_TO_THE_63
    case Array(items) => |items| < TWO_TO_THE_63 && WellTypedItems(items)
    case Push(items) => |items| < TWO_TO_THE_63 && WellTypedItems(items)
    case Map(pairs) => |pairs| < TWO_TO_THE_63 && WellTypedPairs(pairs)
    case _ => true
  }

  predicate WellTypedItems(items: seq<Frame>) {
    forall i :: 0 <= i < |items| ==> WellTyped(items[i])
  }

  predicate WellTypedPairs(pairs: seq<(Frame, Frame)>) {
    forall i :: 0 <= i < |pairs| ==> WellTypedPair(pairs[i])
  }

  predicate WellTypedPair(p: (Frame, Frame)) {
    WellTyped(p.0) && WellTyped(p.1)
  }

  lemma TakenLineHasNoNewline(s: Bytes)
    ensures TakeLine(s).Took? ==> '\n' !in TakeLine(s).value && TakeLine(s).value[0] == s[0]
  {
    var n := NewlineAt(s);
    assert forall i :: 0 <= i < n ==> s[i] in s[..n];
  }

  lemma LeafTakenIsDecodable(f: Frame, rest: Bytes)
    requires IsLeaf(f) && WellTyped(f)
    requires ReadValue(Encode(f) + rest).Took? && ReadValue(Encode(f) + rest).value == Image(f)
    ensures Decodable(f)
  {
    hide TakeLine, ReadValues, ReadEntries;
    if f.SimpleString? || f.SimpleError? {
      TakenLineHasNoNewline(Encode(f) + rest);
    }
  }

  lemma {:induction false} TakenIsDecodable(f: Frame, rest: Bytes)
    requires WellTyped(f)
    requires ReadValue(Encode(f) + rest).Took? && ReadValue(Encode(f) + rest).value == Image(f)
    ensures Decodable(f)
    decreases f
  {
    hide ReadValue, ReadValues, ReadEntries, TakeLine, TakeLength, EncodeItems, EncodePairs, PrintInt;
    match f
    case Array(items) =>
      HeaderThenItems('*', items, rest);
      assert Encode(f) + rest == Line('*', PrintInt(|items|)) + (EncodeItems(items) + rest);
      TakenItemsAreDecodable(items, rest);
    case Push(items) =>
      HeaderThenItems('>', items, rest);
      assert Encode(f) + rest == Line('>', PrintInt(|items|)) + (EncodeItems(items) + rest);
      TakenItemsAreDecodable(items, rest);
    case Map(pairs) =>
      HeaderThenPairs(pairs, rest);
      assert Encode(f) + rest == Line('%', PrintInt(|pairs|)) + (EncodePairs(pairs) + rest);
      TakenPairsAreDecodable(pairs, rest);
    case _ =>
      LeafTakenIsDecodable(f, rest);
  }

  lemma HeaderThenItems(tag: Byte, items: seq<Frame>, rest: Bytes)
    requires tag == '*' || tag == '>'
    requires |items| < TWO_TO_THE_63
    ensures var body := EncodeItems(items) + rest;
            var r := ReadValue(Line(tag, PrintInt(|items|)) + body);
            r.Took? ==> ReadValues(body, |items|).Took? && r.value == RArray(ReadValues(body, |items|).value)
  {
    hide TakeLine, LeafValue, ReadValues, ReadEntries, TakeLength;
    var body := EncodeItems(items) + rest;
    NumberLine(tag, |items|, body, if tag == '*' then BadArrayLength else BadPushLength);
    assert ([tag] + PrintInt(|items|))[1..] == PrintInt(|items|);
  }

  lemma HeaderThenPairs(pairs: seq<(Frame, Frame)>, rest: Bytes)
    requires |pairs| < TWO_TO_THE_63
    ensures var body := EncodePairs(pairs) + rest;
            var r := ReadValue(Line('%', PrintInt(|pairs|)) + body);
            r.Took? ==> ReadEntries(body, |pairs|).Took? && r.value == RMap(ReadEntries(body, |pairs|).value)
  {
    hide TakeLine, LeafValue, ReadValues, ReadEntries, TakeLength;
    var body := EncodePairs(pairs) + rest;
    NumberLine('%', |pairs|, body, BadMapLength);
    assert (['%'] + PrintInt(|pairs|))[1..] == PrintInt(|pairs|);
  }

  lemma {:induction false} TakenItemsAreDecodable(items: seq<Frame>, rest: Bytes)
    requires WellTypedItems(items)
    requires var r := ReadValues(EncodeItems(items) + rest, |items|);
             r.Took? && r.value == ImageItems(items)
    ensures DecodableItems(items)
    decreases items
  {
    hide ReadValue, Encode, Image;
    if items != [] {
      var tail := EncodeItems(items[1..]) + rest;
      assert EncodeItems(items) + rest == Encode(items[0]) + tail;
      var r := ReadValues(EncodeItems(items) + rest, |items|);
      assert r.value[0] == ReadValue(Encode(items[0]) + tail).value;
      TakenIsDecodable(items[0], tail);
      FrameIsTaken(items[0], tail);
      assert r.value[1..] == ReadValues(tail, |items| - 1).value;
      assert ImageItems(items)[1..] == ImageItems(items[1..]);
      TakenItemsAreDecodable(items[1..], rest);
    }
  }

  lemma {:induction false} TakenPairsAreDecodable(pairs: seq<(Frame, Frame)>, rest: Bytes)
    requires WellTypedPairs(pairs)
    requires var r := ReadEntries(EncodePairs(pairs) + rest, |pairs|);
             r.Took? && r.value == ImagePairs(pairs)
    ensures DecodablePairs(pairs)
    decreases pairs
  {
    hide ReadValue, Encode, Image;
    if pairs != [] {
      var tail := EncodePairs(pairs[1..]) + rest;
      assert EncodePairs(pairs) + rest == EncodePair(pairs[0]) + tail;
      var r := ReadEntries(EncodePairs(pairs) + rest, |pairs|);
      assert r.value[0].0 == Image(pairs[0].0);
      TakenPairIsDecodable(pairs[0], tail, r.value[0].1);
      PairIsTaken(pairs[0], tail);
      assert r.value[1..] == ReadEntries(tail, |pairs| - 1).value;
      assert ImagePairs(pairs)[1..] == ImagePairs(pairs[1..]);
      TakenPairsAreDecodable(pairs[1..], rest);
    }
  }

  lemma {:induction false} TakenPairIsDecodable(p: (Frame, Frame), rest: Bytes, val: Response)
    requires WellTypedPair(p)
    requires var k := ReadValue(EncodePair(p) + rest);
             && k.Took? && k.value == Image(p.0)
             && ReadValue(k.rest).Took? && ReadValue(k.rest).value == val == Image(p.1)
    ensures DecodablePair(p)
    decreases p
  {
    hide ReadValue, Encode, Image;
    assert EncodePair(p) + rest == Encode(p.0) + (Encode(p.1) + rest);
    TakenIsDecodable(p.0, Encode(p.1) + rest);
    FrameIsTaken(p.0, Encode(p.1) + rest);
    TakenIsDecodable(p.1, rest);
  }

  // ---- Main results ----

  /**
    The two ends agree: the client reads what the server wrote as the image of the frame and leaves
    the bytes after it, exactly when no one-line text in the frame holds a newline.
   */
  lemma ReadersAgreeExactly(f: Frame, rest: Bytes)
    requires WellTyped(f)
    ensures ReadValue(Encode(f) + rest) == Took(Image(f), rest) <==> Decodable(f)
  {
    hide ReadValue, Encode, Image, Decodable, WellTyped;
    if Decodable(f) {
      FrameIsTaken(f, rest);
    } else if ReadValue(Encode(f) + rest) == Took(Image(f), rest) {
      TakenIsDecodable(f, rest);
    }
  }

  // ---- The client's own printer ----

  /** The frame a response is printed as: strings as bulk strings. */
  function RawFrame(r: Response): Frame {
    match r
    case RString(t) => BulkString(t)
    case RError(t) => SimpleError(t)
    case RInteger(n) => Integer(n)
    case RNull => Null
    case RArray(items) => Array(RawItems(items))
    case RMap(entries) => Map(RawEntries(entries))
  }

  function RawItems(items: seq<Response>): (r: seq<Frame>)
    ensures |r| == |items|
    ensures forall i :: 0 <= i < |items| ==> r[i] == RawFrame(items[i])
  {
    if items == [] then [] else [RawFrame(items[0])] + RawItems(items[1..])
  }

  function RawEntries(entries: seq<(Response, Response)>): (r: seq<(Frame, Frame)>)
    ensures |r| == |entries|
    ensures forall i :: 0 <= i < |entries| ==> r[i] == RawEntry(entries[i])
  {
    if entries == [] then [] else [RawEntry(entries[0])] + RawEntries(entries[1..])
  }

  function RawEntry(e: (Response, Response)): (Frame, Frame) {
    (RawFrame(e.0), RawFrame(e.1))
  }

  /** What Rust's types guarantee of a response: UTF-8 texts and lengths below 2^63. */
  predicate Typed(r: Response) {
    match r
    case RString(t) => Utf8.Valid(t) && |t| < TWO_TO_THE_63
    case RError(t) => Utf8.Valid(t)
    case RArray(items) => |items| < TWO_TO_THE_63 && forall i :: 0 <= i < |items| ==> Typed(items[i])
    case RMap(entries) => |entries| < TWO_TO_THE_63 && forall i :: 0 <= i < |entries| ==> TypedEntry(entries[i])
    case _ => true
  }

  predicate TypedEntry(e: (Response, Response)) {
    Typed(e.0) && Typed(e.1)
  }

  /** No error text in the response holds a newline. */
  predicate Clean(r: Response) {
    match r
    case RError(t) => '\n' !in t
    case RArray(items) => forall i :: 0 <= i < |items| ==> Clean(items[i])
    case RMap(entries) => forall i :: 0 <= i < |entries| ==> CleanEntry(entries[i])
    case _ => true
  }

  predicate CleanEntry(e: (Response, Response)) {
    Clean(e.0) && Clean(e.1)
  }

  lemma {:induction false} RawImage(r: Response)
    requires Typed(r)
    ensures WellTyped(RawFrame(r)) && Image(RawFrame(r)) == r
    ensures Decodable(RawFrame(r)) <==> Clean(r)
    decreases r
  {
    hide Utf8.Valid, Utf8.Lossy;
    match r
    case RString(t) =>
      Utf8.LossyKeepsValid(t);
    case RArray(items) =>
      var fs := RawItems(items);
      forall i | 0 <= i < |items|
        ensures WellTyped(fs[i]) && Image(fs[i]) == items[i] && (Decodable(fs[i]) <==> Clean(items[i]))
      {
        RawImage(items[i]);
      }
      assert ImageItems(fs) == items;
    case RMap(entries) =>
      var ps := RawEntries(entries);
      forall i | 0 <= i < |entries|
        ensures WellTypedPair(ps[i]) && ImagePair(ps[i]) == entries[i]
                && (DecodablePair(ps[i]) <==> CleanEntry(entries[i]))
      {
        RawEntryImage(entries[i]);
      }
      assert ImagePairs(ps) == entries;
    case _ =>
  }

  lemma {:induction false} RawEntryImage(e: (Response, Response))
    requires TypedEntry(e)
    ensures WellTypedPair(RawEntry(e)) && ImagePair(RawEntry(e)) == e
    ensures DecodablePair(RawEntry(e)) <==> CleanEntry(e)
    decreases e
  {
    RawImage(e.0);
    RawImage(e.1);
  }

  /**
    Printing a response and reading it back is the identity, whatever follows, exactly when no error
    text holds a newline.
   */
  lemma RawRoundTripExactly(r: Response, rest: Bytes)
    requires Typed(r)
    ensures ReadValue(Encode(RawFrame(r)) + rest) == Took(r, rest) <==> Clean(r)
  {
    hide ReadValue, Encode, Image, Decodable, WellTyped, Clean, Typed, RawFrame;
    RawImage(r);
    ReadersAgreeExactly(RawFrame(r), rest);
  }

  // ---- Forms no server frame takes ----

  /** A null, an absent string and an absent array are all null. */
  lemma NullsAreTaken(rest: Bytes)
    ensures ReadValue(Line('_', []) + rest) == Took(RNull, rest)
    ensures ReadValue(Line('$', "-1") + rest) == Took(RNull, rest)
    ensures ReadValue(Line('*', "-1") + rest) == Took(RNull, rest)
  {
    hide TakeLine, Line, ParseI64;
    Utf8.AsciiValid("-1");
    LineIsTaken('_', [], rest);
    LineIsTaken('$', "-1", rest);
    LineIsTaken('*', "-1", rest);
    ParsePrintI64(-1);
    assert PrintInt(-1) == "-1";
  }

  /** Doubles are taken as their text and booleans as words. */
  lemma ScalarsAreTaken(t: Bytes, rest: Bytes)
    requires ServerReader.OneLine(t)
    ensures ReadValue(Line(',', t) + rest) == Took(RString(t), rest)
    ensures ReadValue(Line('#', "t") + rest) == Took(RString("true"), rest)
    ensures ReadValue(Line('#', "f") + rest) == Took(RString("false"), rest)
  {
    hide TakeLine, Line;
    Utf8.AsciiValid("t");
    Utf8.AsciiValid("f");
    LineIsTaken(',', t, rest);
    LineIsTaken('#', "t", rest);
    LineIsTaken('#', "f", rest);
  }
}
