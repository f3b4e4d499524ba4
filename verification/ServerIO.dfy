/** The server's writer and reader as they run: bytes appended to a sink, bytes consumed from a stream. */
module ServerIO {
  import opened Text
  import opened Decimal
  import opened Frames
  import opened ServerReader
  import Utf8

  class Sink {
    var out: Bytes

    constructor ()
      ensures out == []
    {
      out := [];
    }

    method WriteAll(bytes: Bytes)
      modifies this
      ensures out == old(out) + bytes
    {
      out := out + bytes;
    }
  }

  /** `write_frame`: appends exactly the encoding of the frame. */
  method WriteFrame(w: Sink, f: Frame)
    modifies w
    ensures w.out == old(w.out) + Encode(f)
    decreases f
  {
    hide EncodeItems, EncodePairs, PrintInt, Line;
    match f
    case SimpleString(t) =>
      WriteLine(w, '+', t);
    case SimpleError(t) =>
      WriteLine(w, '-', t);
    case Integer(n) =>
      WriteLine(w, ':', PrintInt(n));
    case BulkString(d) =>
      WriteLine(w, '$', PrintInt(|d|));
      w.WriteAll(d);
      w.WriteAll(CRLF);
    case Array(items) =>
      WriteLine(w, '*', PrintInt(|items|));
      WriteItems(w, items);
    case Map(pairs) =>
      WriteLine(w, '%', PrintInt(|pairs|));
      WritePairs(w, pairs);
    case Push(items) =>
      WriteLine(w, '>', PrintInt(|items|));
      WriteItems(w, items);
    case Null =>
      w.WriteAll("_" + CRLF);
  }

  method WriteLine(w: Sink, tag: Byte, payload: Bytes)
    modifies w
    ensures w.out == old(w.out) + Line(tag, payload)
  {
    w.WriteAll([tag]);
    w.WriteAll(payload);
    w.WriteAll(CRLF);
  }

  method WriteItems(w: Sink, items: seq<Frame>)
    modifies w
    ensures w.out == old(w.out) + EncodeItems(items)
    decreases items
  {
    hide Encode;
    ghost var start := w.out;
    var i := 0;
    while i < |items|
      invariant 0 <= i <= |items|
      invariant w.out + EncodeItems(items[i..]) == start + EncodeItems(items)
    {
      assert items[i..][1..] == items[i + 1..];
      WriteFrame(w, items[i]);
      i := i + 1;
    }
  }

  method WritePairs(w: Sink, pairs: seq<(Frame, Frame)>)
    modifies w
    ensures w.out == old(w.out) + EncodePairs(pairs)
    decreases pairs
  {
    hide EncodePair;
    ghost var start := w.out;
    var i := 0;
    while i < |pairs|
      invariant 0 <= i <= |pairs|
      invariant w.out + EncodePairs(pairs[i..]) == start + EncodePairs(pairs)
    {
      assert pairs[i..][1..] == pairs[i + 1..];
      WritePair(w, pairs[i]);
      i := i + 1;
    }
  }

  method WritePair(w: Sink, p: (Frame, Frame))
    modifies w
    ensures w.out == old(w.out) + EncodePair(p)
    decreases p
  {
    hide Encode;
    WriteFrame(w, p.0);
    WriteFrame(w, p.1);
  }

  /** The bytes of a connection that the server has not consumed yet. */
  class Stream {
    var rest: Bytes

    constructor (bytes: Bytes)
      ensures rest == bytes
    {
      rest := bytes;
    }

    method Line() returns (r: Result<Bytes, ReadError>)
      modifies this
      ensures Agrees(r, ReadLine(old(rest)), rest)
    {
      var n := NewlineAt(rest);
      var line := if n < |rest| then rest[..n + 1] else rest;
      rest := rest[|line|..];
      if !Utf8.Valid(line) {
        return Err(NotUtf8);
      }
      if n < |line| {
        line := line[..n];
        assert line == old(rest)[..n];
        if n > 0 && line[n - 1] == '\r' {
          line := line[..n - 1];
          assert line == old(rest)[..n - 1];
        }
      }
      return Ok(line);
    }

    method Exact(n: nat) returns (r: Result<Bytes, ReadError>)
      modifies this
      ensures Agrees(r, ReadExact(old(rest), n), rest)
    {
      if |rest| < n {
        rest := [];
        return Err(UnexpectedEof);
      }
      r := Ok(rest[..n]);
      rest := rest[n..];
    }

    method Length(limit: nat, fault: Fault) returns (r: Result<nat, ReadError>)
      modifies this
      ensures Agrees(r, ReadLength(old(rest), limit, fault), rest)
    {
      hide ReadLine, ParseU64;
      var line :- Line();
      var n := ParseU64(line);
      if n.None? {
        return Err(InvalidFormat(fault));
      }
      if n.value > limit {
        return Err(FrameTooLarge(n.value));
      }
      return Ok(n.value);
    }

    method Crlf(fault: Fault) returns (r: Result<(), ReadError>)
      modifies this
      ensures Agrees(r, ReadCrlf(old(rest), fault), rest)
    {
      var crlf :- Exact(2);
      if crlf != CRLF {
        return Err(InvalidFormat(fault));
      }
      return Ok(());
    }
  }

  /** A step's result and the bytes it left are those of the specification. */
  ghost predicate Agrees<T>(r: Result<T, ReadError>, spec: Outcome<T>, rest: Bytes) {
    match spec
    case Got(v, after) => r == Ok(v) && rest == after
    case Eof => false
    case Bad(e) => r == Err(e)
  }

  ghost predicate AgreesOrEof(r: Result<Option<Frame>, ReadError>, spec: Outcome<Frame>, rest: Bytes) {
    match spec
    case Got(f, after) => r == Ok(Some(f)) && rest == after
    case Eof => r == Ok(None)
    case Bad(e) => r == Err(e)
  }

  /** `read_frame`. */
  method ReadOne(r: Stream) returns (res: Result<Option<Frame>, ReadError>)
    modifies r
    ensures AgreesOrEof(res, ReadFrame(old(r.rest)), r.rest)
  {
    res := ReadAtDepth(r, 0);
  }

  /** `read_frame_depth`: every branch and both counted loops give what the specification gives. */
  method ReadAtDepth(r: Stream, depth: nat) returns (res: Result<Option<Frame>, ReadError>)
    modifies r
    ensures AgreesOrEof(res, Read(old(r.rest), depth), r.rest)
    decreases MAX_DEPTH + 1 - depth, 0
  {
    hide ReadLength, ReadScalar, ReadItems, ReadPairs;
    if depth > MAX_DEPTH {
      return Err(NestingTooDeep);
    }
    if r.rest == [] {
      return Ok(None);
    }
    var tag := r.rest[0];
    r.rest := r.rest[1..];
    if tag == '*' {
      var count :- r.Length(MAX_COLLECTION_SIZE, BadArrayLength);
      var items :- ReadMany(r, count, depth + 1, EofInArray);
      return Ok(Some(Array(items)));
    } else if tag == '%' {
      var count :- r.Length(MAX_COLLECTION_SIZE, BadMapLength);
      var pairs :- ReadManyPairs(r, count, depth + 1);
      return Ok(Some(Map(pairs)));
    } else if tag == '>' {
      var count :- r.Length(MAX_COLLECTION_SIZE, BadPushLength);
      var items :- ReadMany(r, count, depth + 1, EofInPush);
      return Ok(Some(Push(items)));
    } else {
      var f :- ReadLeaf(r, tag);
      return Ok(Some(f));
    }
  }

  method ReadLeaf(r: Stream, tag: Byte) returns (res: Result<Frame, ReadError>)
    modifies r
    ensures Agrees(res, ReadScalar(tag, old(r.rest)), r.rest)
  {
    hide ReadLine, ReadLength, ReadExact, ReadCrlf, ParseI64;
    if tag == '+' {
      var line :- r.Line();
      return Ok(SimpleString(line));
    } else if tag == '-' {
      var line :- r.Line();
      return Ok(SimpleError(line));
    } else if tag == ':' {
      var line :- r.Line();
      var n := ParseI64(line);
      return if n.Some? then Ok(Integer(n.value)) else Err(InvalidFormat(BadInteger));
    } else if tag == '$' {
      var len :- r.Length(MAX_BULK_SIZE, BadBulkLength);
      var data :- r.Exact(len);
      var _ :- r.Crlf(NoCrlfAfterBulk);
      return Ok(BulkString(data));
    } else if tag == '_' {
      var _ :- r.Crlf(NoCrlfAfterNull);
      return Ok(Null);
    } else {
      return Err(InvalidTypeByte(tag));
    }
  }

  /** What reading the remaining items means once some have been collected. */
  ghost function Collected<T>(done: seq<T>, more: Outcome<seq<T>>): Outcome<seq<T>> {
    if more.Got? then Got(done + more.value, more.rest) else more
  }

  lemma CollectedStep<T>(done: seq<T>, x: T, more: Outcome<seq<T>>)
    requires more.Got?
    ensures Collected(done, Got([x] + more.value, more.rest)) == Collected(done + [x], more)
  {
    assert done + ([x] + more.value) == (done + [x]) + more.value;
  }

  lemma CollectedEnds<T>(done: seq<T>, more: Outcome<seq<T>>, rest: Bytes)
    ensures Collected(done, Got([], rest)) == Got(done, rest)
    ensures Collected([], more) == more
    ensures !more.Got? ==> Collected(done, more) == more
  {
    assert done + [] == done;
    assert more.Got? ==> [] + more.value == more.value;
  }

  method ReadMany(r: Stream, count: nat, depth: nat, fault: Fault) returns (res: Result<seq<Frame>, ReadError>)
    modifies r
    ensures Agrees(res, ReadItems(old(r.rest), count, depth, fault), r.rest)
    decreases MAX_DEPTH + 1 - depth, count + 1
  {
    hide Read, Collected;
    ghost var spec := ReadItems(r.rest, count, depth, fault);
    var frames := [];
    CollectedEnds(frames, spec, r.rest);
    var i := 0;
    while i < count
      invariant 0 <= i <= count
      invariant spec == Collected(frames, ReadItems(r.rest, count - i, depth, fault))
    {
      CollectedEnds(frames, ReadItems(r.rest, count - i, depth, fault), []);
      var next :- ReadAtDepth(r, depth);
      if next.None? {
        return Err(InvalidFormat(fault));
      }
      ghost var more := ReadItems(r.rest, count - i - 1, depth, fault);
      if more.Got? {
        CollectedStep(frames, next.value, more);
      } else {
        CollectedEnds(frames + [next.value], more, []);
      }
      frames := frames + [next.value];
      i := i + 1;
    }
    CollectedEnds(frames, spec, r.rest);
    return Ok(frames);
  }

  method ReadManyPairs(r: Stream, count: nat, depth: nat) returns (res: Result<seq<(Frame, Frame)>, ReadError>)
    modifies r
    ensures Agrees(res, ReadPairs(old(r.rest), count, depth), r.rest)
    decreases MAX_DEPTH + 1 - depth, count + 1
  {
    hide Read, Collected;
    ghost var spec := ReadPairs(r.rest, count, depth);
    var pairs := [];
    CollectedEnds(pairs, spec, r.rest);
    var i := 0;
    while i < count
      invariant 0 <= i <= count
      invariant spec == Collected(pairs, ReadPairs(r.rest, count - i, depth))
    {
      CollectedEnds(pairs, ReadPairs(r.rest, count - i, depth), []);
      var key :- ReadAtDepth(r, depth);
      if key.None? {
        return Err(InvalidFormat(EofInMapKey));
      }
      var val :- ReadAtDepth(r, depth);
      if val.None? {
        return Err(InvalidFormat(EofInMapValue));
      }
      ghost var more := ReadPairs(r.rest, count - i - 1, depth);
      if more.Got? {
        CollectedStep(pairs, (key.value, val.value), more);
      } else {
        CollectedEnds(pairs + [(key.value, val.value)], more, []);
      }
      pairs := pairs + [(key.value, val.value)];
      i := i + 1;
    }
    CollectedEnds(pairs, spec, r.rest);
    return Ok(pairs);
  }
}
