/** The server's size- and depth-limited RESP3 reader, as a function of the bytes not yet consumed. */
module ServerReader {
  import opened Text
  import opened Decimal
  import opened Frames
  import Utf8

  const MAX_BULK_SIZE := 16 * 1024 * 1024
  const MAX_COLLECTION_SIZE := 100_000
  const MAX_DEPTH := 8

  datatype Fault =
    | BadInteger | BadBulkLength | BadArrayLength | BadMapLength | BadPushLength
    | EofInArray | EofInMapKey | EofInMapValue | EofInPush
    | NoCrlfAfterBulk | NoCrlfAfterNull

  datatype ReadError =
    | InvalidTypeByte(b: Byte)
    | FrameTooLarge(n: nat)
    | NestingTooDeep
    | InvalidFormat(fault: Fault)
    | UnexpectedEof
    | NotUtf8

  /** What one read yields: a value and the bytes after it, a clean end of input, or an error. */
  datatype Outcome<+T> = Got(value: T, rest: Bytes) | Eof | Bad(error: ReadError) {
    predicate IsFailure() {
      !Got?
    }

    function PropagateFailure<U>(): Outcome<U>
      requires !Got?
    {
      if Eof? then Eof else Bad(error)
    }

    function Extract(): (T, Bytes)
      requires Got?
    {
      (value, rest)
    }

    /** End of input in the middle of something is an error. */
    function InsideOf(fault: Fault): (r: Outcome<T>) {
      if Eof? then Bad(InvalidFormat(fault)) else this
    }
  }

  /**
    A line runs to the newline or, when there is none, to the end of input. The terminator is
    removed, and a carriage return only when a newline followed it.
   */
  function ReadLine(s: Bytes): (r: Outcome<Bytes>)
    ensures !r.Eof?
    ensures r.Got? ==> |r.rest| <= |s|
  {
    var n := NewlineAt(s);
    if n == |s| then
      if Utf8.Valid(s) then Got(s, []) else Bad(NotUtf8)
    else if !Utf8.Valid(s[..n + 1]) then Bad(NotUtf8)
    else Got(if n > 0 && s[n - 1] == '\r' then s[..n - 1] else s[..n], s[n + 1..])
  }

  function ReadExact(s: Bytes, n: nat): (r: Outcome<Bytes>)
    ensures !r.Eof?
    ensures r.Got? ==> |r.rest| == |s| - n
  {
    if |s| < n then Bad(UnexpectedEof) else Got(s[..n], s[n..])
  }

  function ReadCrlf(s: Bytes, fault: Fault): (r: Outcome<()>)
    ensures !r.Eof?
    ensures r.Got? ==> |r.rest| <= |s|
  {
    var (crlf, rest) :- ReadExact(s, 2);
    if crlf == CRLF then Got((), rest) else Bad(InvalidFormat(fault))
  }

  /** A length line with its limit. */
  function ReadLength(s: Bytes, limit: nat, fault: Fault): (r: Outcome<nat>)
    ensures !r.Eof?
    ensures r.Got? ==> |r.rest| <= |s| && r.value <= limit
  {
    var (line, rest) :- ReadLine(s);
    match ParseU64(line)
    case None => Bad(InvalidFormat(fault))
    case Some(n) => if n > limit then Bad(FrameTooLarge(n)) else Got(n, rest)
  }

  function ReadBulk(s: Bytes): (r: Outcome<Bytes>)
    ensures !r.Eof?
    ensures r.Got? ==> |r.rest| <= |s| && |r.value| <= MAX_BULK_SIZE
  {
    var (len, body) :- ReadLength(s, MAX_BULK_SIZE, BadBulkLength);
    var (data, tail) :- ReadExact(body, len);
    var (_, rest) :- ReadCrlf(tail, NoCrlfAfterBulk);
    Got(data, rest)
  }

  /** A frame without children, after its type byte. */
  function ReadScalar(tag: Byte, s: Bytes): (r: Outcome<Frame>)
    ensures !r.Eof?
    ensures r.Got? ==> |r.rest| <= |s|
  {
    if tag == '+' then
      var (line, rest) :- ReadLine(s);
      Got(SimpleString(line), rest)
    else if tag == '-' then
      var (line, rest) :- ReadLine(s);
      Got(SimpleError(line), rest)
    else if tag == ':' then
      var (line, rest) :- ReadLine(s);
      if ParseI64(line).Some? then Got(Integer(ParseI64(line).value), rest)
      else Bad(InvalidFormat(BadInteger))
    else if tag == '$' then
      var (data, rest) :- ReadBulk(s);
      Got(BulkString(data), rest)
    else if tag == '_' then
      var (_, rest) :- ReadCrlf(s, NoCrlfAfterNull);
      Got(Null, rest)
    else Bad(InvalidTypeByte(tag))
  }

  /** `read_frame_depth`. */
  function Read(s: Bytes, depth: nat): (r: Outcome<Frame>)
    ensures r.Got? ==> |r.rest| < |s|
    decreases MAX_DEPTH + 1 - depth, 0
  {
    if depth > MAX_DEPTH then Bad(NestingTooDeep)
    else if s == [] then Eof
    else if s[0] == '*' then
      var (count, body) :- ReadLength(s[1..], MAX_COLLECTION_SIZE, BadArrayLength);
      var (items, rest) :- ReadItems(body, count, depth + 1, EofInArray);
      Got(Array(items), rest)
    else if s[0] == '%' then
      var (count, body) :- ReadLength(s[1..], MAX_COLLECTION_SIZE, BadMapLength);
      var (pairs, rest) :- ReadPairs(body, count, depth + 1);
      Got(Map(pairs), rest)
    else if s[0] == '>' then
      var (count, body) :- ReadLength(s[1..], MAX_COLLECTION_SIZE, BadPushLength);
      var (items, rest) :- ReadItems(body, count, depth + 1, EofInPush);
      Got(Push(items), rest)
    else ReadScalar(s[0], s[1..])
  }

  function ReadItems(s: Bytes, count: nat, depth: nat, fault: Fault): (r: Outcome<seq<Frame>>)
    ensures !r.Eof?
    ensures r.Got? ==> |r.rest| <= |s| && |r.value| == count
    decreases MAX_DEPTH + 1 - depth, count + 1
  {
    if count == 0 then Got([], s)
    else
      var (item, tail) :- Read(s, depth).InsideOf(fault);
      var (items, rest) :- ReadItems(tail, count - 1, depth, fault);
      Got([item] + items, rest)
  }

  function ReadPairs(s: Bytes, count: nat, depth: nat): (r: Outcome<seq<(Frame, Frame)>>)
    ensures !r.Eof?
    ensures r.Got? ==> |r.rest| <= |s| && |r.value| == count
    decreases MAX_DEPTH + 1 - depth, count + 1
  {
    if count == 0 then Got([], s)
    else
      var (key, s1) :- Read(s, depth).InsideOf(EofInMapKey);
      var (val, s2) :- Read(s1, depth).InsideOf(EofInMapValue);
      var (pairs, rest) :- ReadPairs(s2, count - 1, depth);
      Got([(key, val)] + pairs, rest)
  }

  /** `read_frame`. */
  function ReadFrame(s: Bytes): Outcome<Frame> {
    Read(s, 0)
  }

  /** A text that fits on one protocol line. */
  predicate OneLine(t: Bytes) {
    '\n' !in t && Utf8.Valid(t)
  }

  lemma PlainLine(s: Bytes)
    requires forall i :: 0 <= i < |s| ==> ' ' <= s[i] <= '~'
    ensures OneLine(s)
  {
    hide Utf8.Valid;
    Utf8.AsciiValid(s);
  }

  lemma JoinedLine(a: Bytes, b: Bytes)
    requires OneLine(a) && OneLine(b)
    ensures OneLine(a + b)
  {
    hide Utf8.Valid;
    Utf8.ValidConcat(a, b);
  }

  /** The frames that can stand at a given depth of the server's input. */
  predicate Readable(f: Frame, depth: nat) {
    && depth <= 8
    && match f
       case SimpleString(t) => OneLine(t)
       case SimpleError(t) => OneLine(t)
       case BulkString(d) => |d| <= 16_777_216
       case Array(items) => |items| <= 100_000 && ReadableItems(items, depth + 1)
       case Push(items) => |items| <= 100_000 && ReadableItems(items, depth + 1)
       case Map(pairs) => |pairs| <= 100_000 && ReadablePairs(pairs, depth + 1)
       case _ => true
  }

  predicate ReadableItems(items: seq<Frame>, depth: nat) {
    forall i :: 0 <= i < |items| ==> Readable(items[i], depth)
  }

  predicate ReadablePairs(pairs: seq<(Frame, Frame)>, depth: nat) {
    forall i :: 0 <= i < |pairs| ==> ReadablePair(pairs[i], depth)
  }

  predicate ReadablePair(p: (Frame, Frame), depth: nat) {
    Readable(p.0, depth) && Readable(p.1, depth)
  }
}
