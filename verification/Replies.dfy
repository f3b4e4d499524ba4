/** Command responses, their frames, and the field lookups the client performs on them. */
module Replies {
  import opened Text
  import opened Decimal
  import opened Frames
  import opened Commands
  import opened ClientReader
  import opened ClientCodec
  import ServerReader
  import Utf8

  datatype Value =
    | VString(text: Bytes)
    | VInteger(n: I64)
    | VFloat(text: Bytes)  // the printed number
    | VBoolean(b: bool)
    | VBytes(data: Bytes)
    | VNull
    | VMap(fields: Fields)
    | VArray(items: seq<Value>)
    | VJson(json: Json)

  /** A response map, in field order. */
  type Fields = seq<(Bytes, Value)>

  datatype CommandResponse =
    | Success(fields: Fields)
    | Failure(error: CommandError)
    | Many(responses: seq<CommandResponse>)
    | CachedFrame(frame: Frame)

  /** `ResponseMap::ok()`. */
  const OK_FIELDS: Fields := [("status", VString("OK"))]

  lemma AfterStatus(name: Bytes, v: Value)
    ensures OK_FIELDS + [(name, v)] == [("status", VString("OK")), (name, v)]
  {
  }

  function ValueFrame(v: Value, codec: JsonCodec): Frame {
    match v
    case VString(t) => BulkString(t)
    case VInteger(n) => Integer(n)
    case VFloat(t) => BulkString(t)
    case VBoolean(b) => BulkString(if b then "true" else "false")
    case VBytes(d) => BulkString(d)
    case VNull => Null
    case VMap(fields) => Map(FieldFrames(fields, codec))
    case VArray(items) => Array(ValueFrames(items, codec))
    case VJson(j) => BulkString(codec.render(j))
  }

  function ValueFrames(items: seq<Value>, codec: JsonCodec): (r: seq<Frame>)
    ensures |r| == |items|
    ensures forall i :: 0 <= i < |items| ==> r[i] == ValueFrame(items[i], codec)
  {
    if items == [] then [] else [ValueFrame(items[0], codec)] + ValueFrames(items[1..], codec)
  }

  function FieldFrames(fields: Fields, codec: JsonCodec): (r: seq<(Frame, Frame)>)
    ensures |r| == |fields|
    ensures forall i :: 0 <= i < |fields| ==> r[i] == FieldFrame(fields[i], codec)
  {
    if fields == [] then [] else [FieldFrame(fields[0], codec)] + FieldFrames(fields[1..], codec)
  }

  function FieldFrame(p: (Bytes, Value), codec: JsonCodec): (Frame, Frame) {
    (BulkString(p.0), ValueFrame(p.1, codec))
  }

  /** `response_to_frame`. */
  function ToFrame(r: CommandResponse, codec: JsonCodec): Frame {
    match r
    case Success(fields) => Map(FieldFrames(fields, codec))
    case Failure(e) => SimpleError(ErrorText(e))
    case Many(responses) => Array(ToFrames(responses, codec))
    case CachedFrame(f) => f
  }

  function ToFrames(rs: seq<CommandResponse>, codec: JsonCodec): (fs: seq<Frame>)
    ensures |fs| == |rs|
    ensures forall i :: 0 <= i < |rs| ==> fs[i] == ToFrame(rs[i], codec)
  {
    if rs == [] then [] else [ToFrame(rs[0], codec)] + ToFrames(rs[1..], codec)
  }

  // ---- Client lookups ----

  /** `to_display_string`. */
  function Display(r: Response): Bytes {
    match r
    case RString(t) => t
    case RError(t) => "(error) " + t
    case RInteger(n) => PrintInt(n)
    case RNull => "(nil)"
    case RArray(_) => "(array)"
    case RMap(_) => "(map)"
  }

  /** `get_field`: the value of the first entry whose key displays as the name. */
  function GetField(r: Response, name: Bytes): Option<Response> {
    if r.RMap? then FindEntry(r.entries, name) else None
  }

  function FindEntry(entries: seq<(Response, Response)>, name: Bytes): Option<Response> {
    if entries == [] then None
    else if Display(entries[0].0) == name then Some(entries[0].1)
    else FindEntry(entries[1..], name)
  }

  function GetString(r: Response, name: Bytes): Option<Bytes> {
    match GetField(r, name)
    case Some(RString(t)) => Some(t)
    case _ => None
  }

  /** `get_int_field`: an integer, or a string that parses as one. */
  function GetInt(r: Response, name: Bytes): Option<I64> {
    match GetField(r, name)
    case Some(RInteger(n)) => Some(n)
    case Some(RString(t)) => ParseI64(t)
    case _ => None
  }

  /** The first field with a name, on the server's side. */
  function Lookup(fields: Fields, name: Bytes): Option<Value> {
    if fields == [] then None
    else if fields[0].0 == name then Some(fields[0].1)
    else Lookup(fields[1..], name)
  }

  predicate NamesAreText(fields: Fields) {
    forall i :: 0 <= i < |fields| ==> Utf8.Valid(fields[i].0)
  }

  /** Looking a field up in the received map finds the image of the value the server put there. */
  lemma {:induction false} FieldIsFound(fields: Fields, name: Bytes, codec: JsonCodec)
    requires NamesAreText(fields)
    ensures FindEntry(ImagePairs(FieldFrames(fields, codec)), name) ==
            match Lookup(fields, name)
            case None => None
            case Some(v) => Some(Image(ValueFrame(v, codec)))
    decreases |fields|
  {
    hide Image, ValueFrame, Utf8.Valid, Utf8.Lossy;
    if fields != [] {
      Utf8.LossyKeepsValid(fields[0].0);
      BulkImage(fields[0].0);
      FieldIsFound(fields[1..], name, codec);
    }
  }

  lemma BulkImage(d: Bytes)
    ensures Image(BulkString(d)) == RString(Utf8.Lossy(d))
  {
  }

  // ---- Replies the client can decode ----

  /** Values whose byte strings and collections have lengths below 2^63. */
  predicate FitsValue(v: Value, codec: JsonCodec) {
    match v
    case VString(t) => |t| < TWO_TO_THE_63
    case VFloat(t) => |t| < TWO_TO_THE_63
    case VBytes(d) => |d| < TWO_TO_THE_63
    case VMap(fields) => FitsFields(fields, codec)
    case VArray(items) => |items| < TWO_TO_THE_63 && forall i :: 0 <= i < |items| ==> FitsValue(items[i], codec)
    case VJson(j) => |codec.render(j)| < TWO_TO_THE_63
    case _ => true
  }

  predicate FitsFields(fields: Fields, codec: JsonCodec) {
    |fields| < TWO_TO_THE_63 && forall i :: 0 <= i < |fields| ==> FitsField(fields[i], codec)
  }

  predicate FitsField(p: (Bytes, Value), codec: JsonCodec) {
    |p.0| < TWO_TO_THE_63 && FitsValue(p.1, codec)
  }

  lemma {:induction false} ValueIsDecodable(v: Value, codec: JsonCodec)
    requires FitsValue(v, codec)
    ensures Decodable(ValueFrame(v, codec))
    decreases v
  {
    match v
    case VMap(fields) =>
      FieldsAreDecodable(fields, codec);
    case VArray(items) =>
      forall i | 0 <= i < |items|
        ensures Decodable(ValueFrames(items, codec)[i])
      {
        ValueIsDecodable(items[i], codec);
      }
    case _ =>
  }

  lemma {:induction false} FieldsAreDecodable(fields: Fields, codec: JsonCodec)
    requires FitsFields(fields, codec)
    ensures Decodable(Map(FieldFrames(fields, codec)))
    decreases fields
  {
    forall i | 0 <= i < |fields|
      ensures DecodablePair(FieldFrames(fields, codec)[i])
    {
      FieldIsDecodable(fields[i], codec);
    }
  }

  lemma {:induction false} FieldIsDecodable(p: (Bytes, Value), codec: JsonCodec)
    requires FitsField(p, codec)
    ensures DecodablePair(FieldFrame(p, codec))
    decreases p
  {
    ValueIsDecodable(p.1, codec);
  }

  /** What the client holds after the server wrote a response and the client read it. */
  function Received(r: CommandResponse, rest: Bytes, codec: JsonCodec): Taken<Response> {
    ReadValue(Encode(ToFrame(r, codec)) + rest)
  }

  /** A successful reply arrives as a map in which every field is found. */
  lemma SuccessIsReceived(fields: Fields, name: Bytes, rest: Bytes, codec: JsonCodec)
    requires FitsFields(fields, codec) && NamesAreText(fields)
    ensures var t := Received(Success(fields), rest, codec);
            && t.Took? && t.rest == rest && t.value.RMap?
            && GetField(t.value, name) == match Lookup(fields, name)
                                          case None => None
                                          case Some(v) => Some(Image(ValueFrame(v, codec)))
  {
    hide ReadValue, Encode, FitsFields, NamesAreText, Lookup, Decodable, FindEntry, ValueFrame;
    FieldsAreDecodable(fields, codec);
    FrameIsTaken(Map(FieldFrames(fields, codec)), rest);
    FieldIsFound(fields, name, codec);
  }

  /** An error reply arrives as its text when that is one line. */
  lemma FailureIsReceived(e: CommandError, rest: Bytes, codec: JsonCodec)
    requires ServerReader.OneLine(ErrorText(e))
    ensures Received(Failure(e), rest, codec) == Took(RError(ErrorText(e)), rest)
  {
    hide ReadValue, Encode, ErrorText;
    FrameIsTaken(SimpleError(ErrorText(e)), rest);
  }

  /** What is left unread of an error reply: everything after the first line of its text. */
  function LeftOver(text: Bytes, rest: Bytes): Bytes {
    var n := NewlineAt(text);
    if n == |text| then rest else text[n + 1..] + CRLF + rest
  }

  /** The text is one line exactly when nothing of the reply stays unread. */
  lemma NothingLeftExactly(text: Bytes)
    ensures LeftOver(text, []) == [] <==> '\n' !in text
  {
    var n := NewlineAt(text);
    if n < |text| {
      assert text[n] in text;
    } else {
      assert text[..n] == text;
    }
  }

  /** Whatever its text, an error reply arrives as an error: the first line of the text; the rest stays unread. */
  lemma ErrorIsReceived(e: CommandError, rest: Bytes, codec: JsonCodec)
    requires Utf8.Valid(ErrorText(e))
    ensures Received(Failure(e), rest, codec) == Took(RError(FirstLine(ErrorText(e))), LeftOver(ErrorText(e), rest))
  {
    hide ReadValue, Encode, ErrorText, FirstLine, LeftOver;
    ErrorTextIsTaken(ErrorText(e), rest);
  }

  lemma ErrorTextIsTaken(t: Bytes, rest: Bytes)
    requires Utf8.Valid(t)
    ensures ReadValue(Encode(SimpleError(t)) + rest) == Took(RError(FirstLine(t)), LeftOver(t, rest))
  {
    hide ReadValue, Line, Utf8.Valid, TakeLine, NewlineAt;
    var n := NewlineAt(t);
    if n == |t| {
      assert t[..n] == t;
      FrameIsTaken(SimpleError(t), rest);
    } else {
      BrokenLine(t, rest);
      LeafAfterLine('-', FirstLine(t), Line('-', t) + rest, t[n + 1..] + CRLF + rest);
    }
  }

  /** A line is taken up to its first break. */
  lemma BrokenLine(t: Bytes, rest: Bytes)
    requires Utf8.Valid(t) && NewlineAt(t) < |t|
    ensures TakeLine(Line('-', t) + rest) == Took(['-'] + FirstLine(t), t[NewlineAt(t) + 1..] + CRLF + rest)
  {
    hide Utf8.Valid, TakeLine, Line, NewlineAt;
    var n := NewlineAt(t);
    var head := ['-'] + t[..n];
    HeadIsText(t, n);
    CutAtNewline(t, n, rest);
    TrimmedHead(t, n);
    LineBreaksAt(head, t[n + 1..] + CRLF + rest);
  }

  lemma HeadIsText(t: Bytes, n: nat)
    requires Utf8.Valid(t) && n < |t| && t[n] == '\n'
    ensures Utf8.Valid(['-'] + t[..n] + "\n")
  {
    hide Utf8.Valid;
    var head := ['-'] + t[..n];
    Utf8.ValidBefore(t, n);
    Utf8.AsciiValid("-");
    Utf8.ValidConcat("-", t[..n]);
    Utf8.AsciiValid("\n");
    Utf8.ValidConcat(head, "\n");
  }

  lemma TrimmedHead(t: Bytes, n: nat)
    requires n == NewlineAt(t) < |t|
    ensures var head := ['-'] + t[..n];
            && head != [] && head != "\r" && '\n' !in head
            && ['-'] + FirstLine(t) == if head[|head| - 1] == '\r' then head[..|head| - 1] else head
  {
    hide NewlineAt;
    var head := ['-'] + t[..n];
    assert head[0] == '-';
    if n > 0 {
      assert head[|head| - 1] == t[n - 1] && head[..|head| - 1] == ['-'] + t[..n - 1];
    }
  }

  lemma CutAtNewline(t: Bytes, n: nat, rest: Bytes)
    requires n < |t| && t[n] == '\n'
    ensures Line('-', t) + rest == ['-'] + t[..n] + "\n" + (t[n + 1..] + CRLF + rest)
  {
    var head, tail := t[..n], t[n + 1..];
    assert t == head + "\n" + tail;
    assert Line('-', t) + rest == ['-'] + (head + "\n" + tail) + CRLF + rest;
    assert ['-'] + (head + "\n" + tail) + CRLF + rest == ['-'] + head + "\n" + (tail + CRLF + rest);
  }

  lemma LineBreaksAt(head: Bytes, tail: Bytes)
    requires head != [] && head != "\r" && '\n' !in head && Utf8.Valid(head + "\n")
    ensures TakeLine(head + "\n" + tail) == Took(if head[|head| - 1] == '\r' then head[..|head| - 1] else head, tail)
  {
    hide Utf8.Valid;
    var s := head + "\n" + tail;
    assert s[..|head|] == head && s[|head|] == '\n';
    NewlineIs(s, |head|);
    assert s[..|head| + 1] == head + "\n" && s[|head| + 1..] == tail;
    assert head[|head| - 1] == '\r' ==> s[..|head| - 1] == head[..|head| - 1] && |head| > 1;
  }

  // ---- Values at the client ----

  /** What the client holds of a value. */
  function ClientValue(v: Value, codec: JsonCodec): Response {
    match v
    case VString(t) => RString(Utf8.Lossy(t))
    case VInteger(n) => RInteger(n)
    case VFloat(t) => RString(Utf8.Lossy(t))
    case VBoolean(b) => RString(if b then "true" else "false")
    case VBytes(d) => RString(Utf8.Lossy(d))
    case VNull => RNull
    case VMap(fields) => RMap(ClientFields(fields, codec))
    case VArray(items) => RArray(ClientValues(items, codec))
    case VJson(j) => RString(Utf8.Lossy(codec.render(j)))
  }

  function ClientValues(items: seq<Value>, codec: JsonCodec): seq<Response> {
    if items == [] then [] else [ClientValue(items[0], codec)] + ClientValues(items[1..], codec)
  }

  function ClientFields(fields: Fields, codec: JsonCodec): seq<(Response, Response)> {
    if fields == [] then [] else [ClientField(fields[0], codec)] + ClientFields(fields[1..], codec)
  }

  function ClientField(p: (Bytes, Value), codec: JsonCodec): (Response, Response) {
    (RString(Utf8.Lossy(p.0)), ClientValue(p.1, codec))
  }

  lemma {:induction false} ValueArrives(v: Value, codec: JsonCodec)
    ensures Image(ValueFrame(v, codec)) == ClientValue(v, codec)
    decreases v
  {
    hide Utf8.Lossy;
    match v
    case VMap(fields) => FieldsArrive(fields, codec);
    case VArray(items) => ValuesArrive(items, codec);
    case VBoolean(b) => WordArrives(b);
    case _ =>
  }

  lemma WordArrives(b: bool)
    ensures var word: Bytes := if b then "true" else "false"; Utf8.Lossy(word) == word
  {
    hide Utf8.Lossy, Utf8.Valid;
    var word: Bytes := if b then "true" else "false";
    Utf8.AsciiValid(word);
    Utf8.LossyKeepsValid(word);
  }

  lemma {:induction false} ValuesArrive(items: seq<Value>, codec: JsonCodec)
    ensures ImageItems(ValueFrames(items, codec)) == ClientValues(items, codec)
    decreases items
  {
    hide Image, ValueFrame, ClientValue;
    if items != [] {
      ValueArrives(items[0], codec);
      ValuesArrive(items[1..], codec);
    }
  }

  lemma {:induction false} FieldsArrive(fields: Fields, codec: JsonCodec)
    ensures ImagePairs(FieldFrames(fields, codec)) == ClientFields(fields, codec)
    decreases fields
  {
    hide Image, ValueFrame, ClientValue, Utf8.Lossy;
    if fields != [] {
      FieldArrives(fields[0], codec);
      FieldsArrive(fields[1..], codec);
    }
  }

  lemma {:induction false} FieldArrives(p: (Bytes, Value), codec: JsonCodec)
    ensures ImagePair(FieldFrame(p, codec)) == ClientField(p, codec)
    decreases p
  {
    hide Image, ValueFrame, ClientValue, Utf8.Lossy;
    ValueArrives(p.1, codec);
    BulkImage(p.0);
  }

  /** A successful reply arrives with every value, of every kind and depth, as the client holds it. */
  lemma ReplyArrives(fields: Fields, rest: Bytes, codec: JsonCodec)
    requires FitsFields(fields, codec)
    ensures Received(Success(fields), rest, codec) == Took(RMap(ClientFields(fields, codec)), rest)
  {
    hide ReadValue, Encode, FitsFields, Decodable, ValueFrame;
    FieldsAreDecodable(fields, codec);
    FrameIsTaken(Map(FieldFrames(fields, codec)), rest);
    FieldsArrive(fields, codec);
  }
}
