/** The client's reader and writers as they run. */
module ClientIO {
  import opened Text
  import opened Decimal
  import opened Frames
  import opened ClientReader
  import opened ClientCodec
  import opened ServerIO
  import Utf8

  ghost predicate Follows<T>(r: Result<T, Fault>, spec: Taken<T>, rest: Bytes) {
    match spec
    case Took(v, after) => r == Ok(v) && rest == after
    case Failed(fault, after) => r == Err(fault) && rest == after
  }

  method NextLine(r: Stream) returns (res: Result<Bytes, Fault>)
    modifies r
    ensures Follows(res, TakeLine(old(r.rest)), r.rest)
  {
    var n := NewlineAt(r.rest);
    var line := if n < |r.rest| then r.rest[..n + 1] else r.rest;
    if line == [] {
      return Err(Closed);
    }
    r.rest := r.rest[|line|..];
    if !Utf8.Valid(line) {
      return Err(NotUtf8);
    }
    if n < |line| {
      line := line[..n];
      assert line == old(r.rest)[..n];
      if n > 0 && line[n - 1] == '\r' {
        line := line[..n - 1];
        assert line == old(r.rest)[..n - 1];
      }
    }
    assert n == |old(r.rest)| ==> line == old(r.rest)[..n];
    if line == [] {
      return Err(EmptyLine);
    }
    return Ok(line);
  }

  /** `read_value`. */
  method ReceiveValue(r: Stream) returns (res: Result<Response, Fault>)
    modifies r
    ensures Follows(res, ReadValue(old(r.rest)), r.rest)
    decreases |r.rest|, 0
  {
    hide TakeLine, ReadValues, ReadEntries, ParseI64, Utf8.Lossy;
    var line :- NextLine(r);
    var tag, payload := line[0], line[1..];
    if tag as int >= 0x80 {
      return Err(Panic);
    }
    if tag == '*' {
      var count := ParseI64(payload);
      if count.None? {
        return Err(BadArrayLength);
      }
      if count.value < 0 {
        return Ok(RNull);
      }
      var items :- ReceiveMany(r, count.value);
      return Ok(RArray(items));
    } else if tag == '>' || tag == '~' {
      var count := ParseI64(payload);
      if count.None? {
        return Err(if tag == '>' then BadPushLength else BadSetLength);
      }
      if count.value < 0 {
        return Err(Panic);
      }
      var items :- ReceiveMany(r, count.value);
      return Ok(RArray(items));
    } else if tag == '%' {
      var count := ParseI64(payload);
      if count.None? {
        return Err(BadMapLength);
      }
      if count.value < 0 {
        return Err(Panic);
      }
      var entries :- ReceiveManyEntries(r, count.value);
      return Ok(RMap(entries));
    } else {
      res := ReceiveLeaf(r, tag, payload);
    }
  }

  method ReceiveLeaf(r: Stream, tag: Byte, payload: Bytes) returns (res: Result<Response, Fault>)
    requires tag as int < 0x80
    modifies r
    ensures Follows(res, LeafValue(tag, payload, old(r.rest)), r.rest)
  {
    hide ParseI64, Utf8.Lossy;
    match tag
    case '+' => return Ok(RString(payload));
    case ',' => return Ok(RString(payload));
    case '-' => return Ok(RError(payload));
    case '_' => return Ok(RNull);
    case ':' =>
      var n := ParseI64(payload);
      return if n.Some? then Ok(RInteger(n.value)) else Err(BadInteger);
    case '$' =>
      var len := ParseI64(payload);
      if len.None? {
        return Err(BadBulkLength);
      }
      if len.value < 0 {
        return Ok(RNull);
      }
      var n: nat := len.value;
      if |r.rest| < n + 2 {
        r.rest := [];
        return Err(ShortRead);
      }
      var data := r.rest[..n];
      r.rest := r.rest[n + 2..];
      return Ok(RString(Utf8.Lossy(data)));
    case '#' =>
      return if payload == "t" then Ok(RString("true"))
        else if payload == "f" then Ok(RString("false"))
        else Err(BadBoolean);
    case _ => return Err(Unsupported(tag));
  }

  /** What receiving the remaining values means once some have been collected. */
  ghost function Gathered<T>(done: seq<T>, more: Taken<seq<T>>): Taken<seq<T>> {
    if more.Took? then Took(done + more.value, more.rest) else more
  }

  lemma GatheredStep<T>(done: seq<T>, x: T, more: Taken<seq<T>>)
    requires more.Took?
    ensures Gathered(done, Took([x] + more.value, more.rest)) == Gathered(done + [x], more)
  {
    assert done + ([x] + more.value) == (done + [x]) + more.value;
  }

  lemma GatheredEnds<T>(done: seq<T>, more: Taken<seq<T>>, rest: Bytes)
    ensures Gathered(done, Took([], rest)) == Took(done, rest)
    ensures Gathered([], more) == more
    ensures !more.Took? ==> Gathered(done, more) == more
  {
    assert done + [] == done;
    assert more.Took? ==> [] + more.value == more.value;
  }

  method ReceiveMany(r: Stream, count: nat) returns (res: Result<seq<Response>, Fault>)
    modifies r
    ensures Follows(res, ReadValues(old(r.rest), count), r.rest)
    decreases |r.rest|, 1
  {
    hide ReadValue, Gathered;
    ghost var spec := ReadValues(r.rest, count);
    var items := [];
    GatheredEnds(items, spec, r.rest);
    var i := 0;
    while i < count
      invariant 0 <= i <= count
      invariant |r.rest| <= |old(r.rest)|
      invariant spec == Gathered(items, ReadValues(r.rest, count - i))
    {
      GatheredEnds(items, ReadValues(r.rest, count - i), []);
      var item :- ReceiveValue(r);
      ghost var more := ReadValues(r.rest, count - i - 1);
      if more.Took? {
        GatheredStep(items, item, more);
      } else {
        GatheredEnds(items + [item], more, []);
      }
      items := items + [item];
      i := i + 1;
    }
    GatheredEnds(items, spec, r.rest);
    return Ok(items);
  }

  method ReceiveManyEntries(r: Stream, count: nat) returns (res: Result<seq<(Response, Response)>, Fault>)
    modifies r
    ensures Follows(res, ReadEntries(old(r.rest), count), r.rest)
    decreases |r.rest|, 1
  {
    hide ReadValue, Gathered;
    ghost var spec := ReadEntries(r.rest, count);
    var entries := [];
    GatheredEnds(entries, spec, r.rest);
    var i := 0;
    while i < count
      invariant 0 <= i <= count
      invariant |r.rest| <= |old(r.rest)|
      invariant spec == Gathered(entries, ReadEntries(r.rest, count - i))
    {
      GatheredEnds(entries, ReadEntries(r.rest, count - i), []);
      var key :- ReceiveValue(r);
      var val :- ReceiveValue(r);
      ghost var more := ReadEntries(r.rest, count - i - 1);
      if more.Took? {
        GatheredStep(entries, (key, val), more);
      } else {
        GatheredEnds(entries + [(key, val)], more, []);
      }
      entries := entries + [(key, val)];
      i := i + 1;
    }
    GatheredEnds(entries, spec, r.rest);
    return Ok(entries);
  }

  // ---- Writers ----

  function Bulks(args: seq<Bytes>): (r: seq<Frame>)
    ensures |r| == |args|
    ensures forall i :: 0 <= i < |args| ==> r[i] == BulkString(args[i])
  {
    seq(|args|, i requires 0 <= i < |args| => BulkString(args[i]))
  }

  /** The frame of a flat command. */
  function CommandFrame(args: seq<Bytes>): Frame {
    Array(Bulks(args))
  }

  /** The frame of a pipeline: the keyword, an optional request id, one array per command. */
  function PipelineFrame(commands: seq<seq<Bytes>>, requestId: Option<Bytes>): Frame {
    Array(PipelineHead(requestId) + CommandFrames(commands))
  }

  function PipelineHead(requestId: Option<Bytes>): (r: seq<Frame>) {
    Bulks(["PIPELINE"] + if requestId.Some? then ["REQUEST_ID", requestId.value] else [])
  }

  function CommandFrames(commands: seq<seq<Bytes>>): (r: seq<Frame>)
    ensures |r| == |commands|
    ensures forall i :: 0 <= i < |commands| ==> r[i] == CommandFrame(commands[i])
  {
    seq(|commands|, i requires 0 <= i < |commands| => CommandFrame(commands[i]))
  }

  lemma OneItem(f: Frame)
    ensures EncodeItems([f]) == Encode(f)
  {
    assert Encode(f) + [] == Encode(f);
  }

  lemma {:induction false} EncodeItemsConcat(a: seq<Frame>, b: seq<Frame>)
    ensures EncodeItems(a + b) == EncodeItems(a) + EncodeItems(b)
  {
    hide Encode;
    if a == [] {
      assert a + b == b;
    } else {
      assert (a + b)[0] == a[0] && (a + b)[1..] == a[1..] + b;
      EncodeItemsConcat(a[1..], b);
    }
  }

  method WriteArgument(w: Sink, arg: Bytes)
    modifies w
    ensures w.out == old(w.out) + Encode(BulkString(arg))
  {
    hide Line;
    WriteLine(w, '$', PrintInt(|arg|));
    w.WriteAll(arg);
    w.WriteAll(CRLF);
  }

  /** `write_command`: a header line and one bulk string per argument. */
  method WriteCommand(w: Sink, args: seq<Bytes>)
    modifies w
    ensures w.out == old(w.out) + Encode(CommandFrame(args))
  {
    hide Line, EncodeItems;
    WriteLine(w, '*', PrintInt(|args|));
    WriteArguments(w, args);
  }

  method WriteArguments(w: Sink, args: seq<Bytes>)
    modifies w
    ensures w.out == old(w.out) + EncodeItems(Bulks(args))
  {
    hide Encode;
    ghost var start, bulks := w.out, Bulks(args);
    var i := 0;
    while i < |args|
      invariant 0 <= i <= |args|
      invariant w.out + EncodeItems(bulks[i..]) == start + EncodeItems(bulks)
    {
      assert bulks[i..][1..] == bulks[i + 1..];
      WriteArgument(w, args[i]);
      i := i + 1;
    }
  }

  /** The piecewise pipeline builder writes the pipeline as one frame. */
  method WritePipeline(w: Sink, commands: seq<seq<Bytes>>, requestId: Option<Bytes>)
    modifies w
    ensures w.out == old(w.out) + Encode(PipelineFrame(commands, requestId))
  {
    hide Line, EncodeItems;
    ghost var start := w.out;
    ghost var frames := CommandFrames(commands);
    var keywordCount := if requestId.Some? then 2 else 0;
    var total := 1 + keywordCount + |commands|;
    WriteLine(w, '*', PrintInt(total));
    ghost var head := w.out;
    WritePipelineHead(w, requestId);
    WriteCommands(w, commands);
    EncodeItemsConcat(PipelineHead(requestId), frames);
    assert w.out == head + EncodeItems(PipelineHead(requestId) + frames);
    assert |PipelineHead(requestId) + frames| == total;
  }

  method WritePipelineHead(w: Sink, requestId: Option<Bytes>)
    modifies w
    ensures w.out == old(w.out) + EncodeItems(PipelineHead(requestId))
  {
    hide Encode;
    ghost var start := w.out;
    WriteArguments(w, ["PIPELINE"]);
    assert Bulks(["PIPELINE"]) == [BulkString("PIPELINE")];
    if requestId.Some? {
      WriteArguments(w, ["REQUEST_ID", requestId.value]);
      EncodeItemsConcat(Bulks(["PIPELINE"]), Bulks(["REQUEST_ID", requestId.value]));
      assert Bulks(["PIPELINE"]) + Bulks(["REQUEST_ID", requestId.value]) == PipelineHead(requestId);
    } else {
      assert ["PIPELINE"] + [] == ["PIPELINE"];
    }
  }

  method WriteCommands(w: Sink, commands: seq<seq<Bytes>>)
    modifies w
    ensures w.out == old(w.out) + EncodeItems(CommandFrames(commands))
  {
    hide Encode;
    ghost var start, frames := w.out, CommandFrames(commands);
    var i := 0;
    while i < |commands|
      invariant 0 <= i <= |commands|
      invariant w.out + EncodeItems(frames[i..]) == start + EncodeItems(frames)
    {
      assert frames[i..][1..] == frames[i + 1..];
      WriteCommand(w, commands[i]);
      i := i + 1;
    }
  }

  /** `write_raw` of a response. */
  method WriteRaw(resp: Response, buf: Sink)
    modifies buf
    ensures buf.out == old(buf.out) + Encode(RawFrame(resp))
    decreases resp
  {
    hide Line, EncodeItems, EncodePairs, PrintInt, RawItems, RawEntries;
    match resp
    case RString(t) =>
      WriteArgument(buf, t);
    case RError(t) =>
      WriteLine(buf, '-', t);
    case RInteger(n) =>
      WriteLine(buf, ':', PrintInt(n));
    case RNull =>
      buf.WriteAll("_" + CRLF);
    case RArray(items) =>
      WriteLine(buf, '*', PrintInt(|items|));
      WriteRawItems(items, buf);
    case RMap(entries) =>
      WriteLine(buf, '%', PrintInt(|entries|));
      WriteRawEntries(entries, buf);
  }

  method WriteRawItems(items: seq<Response>, buf: Sink)
    modifies buf
    ensures buf.out == old(buf.out) + EncodeItems(RawItems(items))
    decreases items
  {
    hide Encode, RawFrame;
    ghost var start, frames := buf.out, RawItems(items);
    var i := 0;
    while i < |items|
      invariant 0 <= i <= |items|
      invariant buf.out + EncodeItems(frames[i..]) == start + EncodeItems(frames)
    {
      assert frames[i..][1..] == frames[i + 1..];
      WriteRaw(items[i], buf);
      i := i + 1;
    }
  }

  method WriteRawEntries(entries: seq<(Response, Response)>, buf: Sink)
    modifies buf
    ensures buf.out == old(buf.out) + EncodePairs(RawEntries(entries))
    decreases entries
  {
    hide EncodePair, RawFrame;
    ghost var start, pairs := buf.out, RawEntries(entries);
    var i := 0;
    while i < |entries|
      invariant 0 <= i <= |entries|
      invariant buf.out + EncodePairs(pairs[i..]) == start + EncodePairs(pairs)
    {
      assert pairs[i..][1..] == pairs[i + 1..];
      WriteRawEntry(entries[i], buf);
      i := i + 1;
    }
  }

  method WriteRawEntry(e: (Response, Response), buf: Sink)
    modifies buf
    ensures buf.out == old(buf.out) + EncodePair(RawEntry(e))
    decreases e
  {
    hide Encode, RawFrame;
    WriteRaw(e.0, buf);
    WriteRaw(e.1, buf);
  }
}
