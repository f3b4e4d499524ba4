/** The client's RESP3 reader: no depth or size limit, more types, lossy text. */
module ClientReader {
  import opened Text
  import opened Decimal
  import Utf8

  datatype Response =
    | RString(text: Bytes)
    | RError(text: Bytes)
    | RInteger(n: I64)
    | RNull
    | RArray(items: seq<Response>)
    | RMap(entries: seq<(Response, Response)>)

  datatype Fault =
    | Closed | NotUtf8 | EmptyLine | ShortRead
    | BadInteger | BadBulkLength | BadArrayLength | BadMapLength | BadPushLength | BadSetLength | BadBoolean
    | Unsupported(tag: Byte)
    | Panic  // a slice inside a character, or a negative capacity

  /** What one read yields, and the bytes it left unread, also when it failed. */
  datatype Taken<+T> = Took(value: T, rest: Bytes) | Failed(fault: Fault, rest: Bytes) {
    predicate IsFailure() {
      Failed?
    }

    function PropagateFailure<U>(): Taken<U>
      requires Failed?
    {
      Failed(fault, rest)
    }

    function Extract(): (T, Bytes)
      requires Took?
    {
      (value, rest)
    }
  }

  /** The next line without its terminator. */
  function TakeLine(s: Bytes): (r: Taken<Bytes>)
    ensures r.Took? ==> |r.rest| < |s| && r.value != []
  {
    var n := NewlineAt(s);
    var after := if n < |s| then s[n + 1..] else [];
    if s == [] then Failed(Closed, [])
    else if !Utf8.Valid(if n < |s| then s[..n + 1] else s) then Failed(NotUtf8, after)
    else
      var line := if n > 0 && n < |s| && s[n - 1] == '\r' then s[..n - 1] else s[..n];
      if line == [] then Failed(EmptyLine, after) else Took(line, after)
  }

  function TakeLength(payload: Bytes, rest: Bytes, fault: Fault): (r: Taken<I64>)
    ensures r.rest == rest
  {
    if ParseI64(payload).Some? then Took(ParseI64(payload).value, rest) else Failed(fault, rest)
  }

  /** The data of a bulk string; the two bytes after it are skipped unchecked. */
  function TakeBulk(s: Bytes, len: nat): (r: Taken<Response>)
    ensures r.Took? ==> |r.rest| <= |s|
  {
    if |s| < len + 2 then Failed(ShortRead, []) else Took(RString(Utf8.Lossy(s[..len])), s[len + 2..])
  }

  function LeafValue(tag: Byte, payload: Bytes, rest: Bytes): (r: Taken<Response>)
    ensures r.Took? ==> |r.rest| <= |rest|
  {
    if tag as int >= 0x80 then Failed(Panic, rest)
    else if tag == '+' || tag == ',' then Took(RString(payload), rest)
    else if tag == '-' then Took(RError(payload), rest)
    else if tag == ':' then
      var (n, _) :- TakeLength(payload, rest, BadInteger);
      Took(RInteger(n), rest)
    else if tag == '_' then Took(RNull, rest)
    else if tag == '$' then
      var (len, _) :- TakeLength(payload, rest, BadBulkLength);
      if len < 0 then Took(RNull, rest) else TakeBulk(rest, len)
    else if tag == '#' then
      if payload == "t" then Took(RString("true"), rest)
      else if payload == "f" then Took(RString("false"), rest)
      else Failed(BadBoolean, rest)
    else Failed(Unsupported(tag), rest)
  }

  /** `read_value`. */
  function ReadValue(s: Bytes): (r: Taken<Response>)
    ensures r.Took? ==> |r.rest| < |s|
    decreases |s|, 0
  {
    var (line, body) :- TakeLine(s);
    var tag, payload := line[0], line[1..];
    if tag == '*' then
      var (count, _) :- TakeLength(payload, body, BadArrayLength);
      if count < 0 then Took(RNull, body)
      else
        var (items, rest) :- ReadValues(body, count);
        Took(RArray(items), rest)
    else if tag == '>' || tag == '~' then
      var (count, _) :- TakeLength(payload, body, if tag == '>' then BadPushLength else BadSetLength);
      if count < 0 then Failed(Panic, body)
      else
        var (items, rest) :- ReadValues(body, count);
        Took(RArray(items), rest)
    else if tag == '%' then
      var (count, _) :- TakeLength(payload, body, BadMapLength);
      if count < 0 then Failed(Panic, body)
      else
        var (entries, rest) :- ReadEntries(body, count);
        Took(RMap(entries), rest)
    else LeafValue(tag, payload, body)
  }

  function ReadValues(s: Bytes, count: nat): (r: Taken<seq<Response>>)
    ensures r.Took? ==> |r.rest| <= |s| && |r.value| == count
    decreases |s|, 1
  {
    if count == 0 then Took([], s)
    else
      var (item, tail) :- ReadValue(s);
      var (items, rest) :- ReadValues(tail, count - 1);
      Took([item] + items, rest)
  }

  function ReadEntries(s: Bytes, count: nat): (r: Taken<seq<(Response, Response)>>)
    ensures r.Took? ==> |r.rest| <= |s| && |r.value| == count
    decreases |s|, 1
  {
    if count == 0 then Took([], s)
    else
      var (key, s1) :- ReadValue(s);
      var (val, s2) :- ReadValue(s1);
      var (entries, rest) :- ReadEntries(s2, count - 1);
      Took([(key, val)] + entries, rest)
  }
}
