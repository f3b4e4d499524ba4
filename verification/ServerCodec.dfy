/** Writing a frame and reading it back on the server. */
module ServerCodec {
  import opened Text
  import opened Decimal
  import opened Frames
  import opened ServerReader
  import Utf8

  // ---- Printed frames are read back ----

  lemma LineIsRead(t: Bytes, rest: Bytes)
    requires OneLine(t)
    ensures ReadLine(t + CRLF + rest) == Got(t, rest)
  {
    var s := t + CRLF + rest;
    NewlineAfterText(t, rest);
    assert s[..|t| + 2] == t + CRLF;
    Utf8.ValidConcat(t, CRLF);
    Utf8.AsciiValid(CRLF);
    assert s[..|t|] == t && s[|t|] == '\r' && s[|t| + 2..] == rest;
  }

  lemma LengthIsRead(n: nat, limit: nat, fault: Fault, rest: Bytes)
    requires n <= limit < TWO_TO_THE_64
    ensures ReadLength(PrintInt(n) + CRLF + rest, limit, fault) == Got(n, rest)
  {
    PrintIsText(n);
    LineIsRead(PrintInt(n), rest);
    ParsePrintU64(n);
  }

  lemma BulkIsRead(d: Bytes, rest: Bytes)
    requires |d| <= MAX_BULK_SIZE
    ensures ReadScalar('$', PrintInt(|d|) + CRLF + (d + CRLF + rest)) == Got(BulkString(d), rest)
  {
    hide ReadLine;
    LengthIsRead(|d|, MAX_BULK_SIZE, BadBulkLength, d + CRLF + rest);
    var body := d + CRLF + rest;
    assert body[..|d|] == d && body[|d|..] == CRLF + rest;
    assert (CRLF + rest)[..2] == CRLF && (CRLF + rest)[2..] == rest;
  }

  lemma LineThen(tag: Byte, payload: Bytes, rest: Bytes)
    ensures Line(tag, payload) + rest == [tag] + (payload + CRLF + rest)
  {
  }

  lemma BulkThen(len: Bytes, d: Bytes, rest: Bytes)
    ensures Line('$', len) + d + CRLF + rest == ['$'] + (len + CRLF + (d + CRLF + rest))
  {
    LineThen('$', len, d + CRLF + rest);
    assert Line('$', len) + d + CRLF + rest == Line('$', len) + (d + CRLF + rest);
  }

  /** Peels the type byte off a printed line. */
  lemma LineSplits(tag: Byte, payload: Bytes, body: Bytes, rest: Bytes)
    ensures var s := Line(tag, payload) + body + rest;
            s != [] && s[0] == tag && s[1..] == payload + CRLF + (body + rest)
  {
  }

  lemma TextIsRead(t: Bytes, rest: Bytes)
    requires OneLine(t)
    ensures ReadScalar('+', t + CRLF + rest) == Got(SimpleString(t), rest)
    ensures ReadScalar('-', t + CRLF + rest) == Got(SimpleError(t), rest)
  {
    LineIsRead(t, rest);
  }

  lemma IntegerIsRead(n: I64, rest: Bytes)
    ensures ReadScalar(':', PrintInt(n) + CRLF + rest) == Got(Integer(n), rest)
  {
    PrintIsText(n);
    ParsePrintI64(n);
    LineIsRead(PrintInt(n), rest);
  }

  lemma NullIsRead(rest: Bytes)
    ensures ReadScalar('_', CRLF + rest) == Got(Null, rest)
  {
    assert (CRLF + rest)[..2] == CRLF && (CRLF + rest)[2..] == rest;
  }

  lemma ScalarAfterTag(tag: Byte, body: Bytes, depth: nat)
    requires depth <= MAX_DEPTH && tag != '*' && tag != '%' && tag != '>'
    ensures Read([tag] + body, depth) == ReadScalar(tag, body)
  {
    assert ([tag] + body)[1..] == body;
  }

  lemma ScalarFrameIsRead(f: Frame, depth: nat, rest: Bytes)
    requires IsLeaf(f) && Readable(f, depth)
    ensures Read(Encode(f) + rest, depth) == Got(f, rest)
  {
    hide Read, ReadScalar;
    match f
    case SimpleString(t) =>
      TextIsRead(t, rest);
      ScalarAfterTag('+', t + CRLF + rest, depth);
      LineThen('+', t, rest);
    case SimpleError(t) =>
      TextIsRead(t, rest);
      ScalarAfterTag('-', t + CRLF + rest, depth);
      LineThen('-', t, rest);
    case Integer(n) =>
      IntegerIsRead(n, rest);
      ScalarAfterTag(':', PrintInt(n) + CRLF + rest, depth);
      LineThen(':', PrintInt(n), rest);
    case BulkString(d) =>
      BulkIsRead(d, rest);
      ScalarAfterTag('$', PrintInt(|d|) + CRLF + (d + CRLF + rest), depth);
      BulkThen(PrintInt(|d|), d, rest);
    case Null =>
      NullIsRead(rest);
      ScalarAfterTag('_', CRLF + rest, depth);
      assert Encode(f) + rest == ['_'] + (CRLF + rest);
  }

  lemma ArrayFrameIsRead(items: seq<Frame>, depth: nat, rest: Bytes)
    requires depth <= MAX_DEPTH && |items| <= MAX_COLLECTION_SIZE
    requires ReadItems(EncodeItems(items) + rest, |items|, depth + 1, EofInArray) == Got(items, rest)
    ensures Read(Encode(Array(items)) + rest, depth) == Got(Array(items), rest)
  {
    hide ReadLine, ReadItems;
    LineSplits('*', PrintInt(|items|), EncodeItems(items), rest);
    LengthIsRead(|items|, MAX_COLLECTION_SIZE, BadArrayLength, EncodeItems(items) + rest);
  }

  lemma PushFrameIsRead(items: seq<Frame>, depth: nat, rest: Bytes)
    requires depth <= MAX_DEPTH && |items| <= MAX_COLLECTION_SIZE
    requires ReadItems(EncodeItems(items) + rest, |items|, depth + 1, EofInPush) == Got(items, rest)
    ensures Read(Encode(Push(items)) + rest, depth) == Got(Push(items), rest)
  {
    hide ReadLine, ReadItems;
    LineSplits('>', PrintInt(|items|), EncodeItems(items), rest);
    LengthIsRead(|items|, MAX_COLLECTION_SIZE, BadPushLength, EncodeItems(items) + rest);
  }

  lemma MapFrameIsRead(pairs: seq<(Frame, Frame)>, depth: nat, rest: Bytes)
    requires depth <= MAX_DEPTH && |pairs| <= MAX_COLLECTION_SIZE
    requires ReadPairs(EncodePairs(pairs) + rest, |pairs|, depth + 1) == Got(pairs, rest)
    ensures Read(Encode(Map(pairs)) + rest, depth) == Got(Map(pairs), rest)
  {
    hide ReadLine, ReadPairs;
    LineSplits('%', PrintInt(|pairs|), EncodePairs(pairs), rest);
    LengthIsRead(|pairs|, MAX_COLLECTION_SIZE, BadMapLength, EncodePairs(pairs) + rest);
  }

  lemma {:induction false} FrameIsRead(f: Frame, depth: nat, rest: Bytes)
    requires Readable(f, depth)
    ensures Read(Encode(f) + rest, depth) == Got(f, rest)
    decreases f
  {
    hide Read, ReadItems, ReadPairs;
    match f
    case Array(items) =>
      ItemsAreRead(items, depth + 1, EofInArray, rest);
      ArrayFrameIsRead(items, depth, rest);
    case Map(pairs) =>
      PairsAreRead(pairs, depth + 1, rest);
      MapFrameIsRead(pairs, depth, rest);
    case Push(items) =>
      ItemsAreRead(items, depth + 1, EofInPush, rest);
      PushFrameIsRead(items, depth, rest);
    case _ =>
      ScalarFrameIsRead(f, depth, rest);
  }

  lemma {:induction false} ItemsAreRead(items: seq<Frame>, depth: nat, fault: Fault, rest: Bytes)
    requires ReadableItems(items, depth)
    ensures ReadItems(EncodeItems(items) + rest, |items|, depth, fault) == Got(items, rest)
    decreases items
  {
    hide Read;
    if items == [] {
      assert EncodeItems(items) + rest == rest;
    } else {
      var tail := EncodeItems(items[1..]) + rest;
      assert EncodeItems(items) + rest == Encode(items[0]) + tail;
      FrameIsRead(items[0], depth, tail);
      ItemsAreRead(items[1..], depth, fault, rest);
      ItemsStep(items, EncodeItems(items) + rest, tail, depth, fault, rest);
    }
  }

  lemma ItemsStep(items: seq<Frame>, s: Bytes, tail: Bytes, depth: nat, fault: Fault, rest: Bytes)
    requires items != []
    requires Read(s, depth) == Got(items[0], tail)
    requires ReadItems(tail, |items| - 1, depth, fault) == Got(items[1..], rest)
    ensures ReadItems(s, |items|, depth, fault) == Got(items, rest)
  {
    hide Read;
    assert items == [items[0]] + items[1..];
  }

  lemma {:induction false} PairIsRead(p: (Frame, Frame), depth: nat, rest: Bytes)
    requires ReadablePair(p, depth)
    ensures Read(EncodePair(p) + rest, depth) == Got(p.0, Encode(p.1) + rest)
    ensures Read(Encode(p.1) + rest, depth) == Got(p.1, rest)
    decreases p
  {
    hide Read;
    assert EncodePair(p) + rest == Encode(p.0) + (Encode(p.1) + rest);
    FrameIsRead(p.0, depth, Encode(p.1) + rest);
    FrameIsRead(p.1, depth, rest);
  }

  lemma {:induction false} PairsAreRead(pairs: seq<(Frame, Frame)>, depth: nat, rest: Bytes)
    requires ReadablePairs(pairs, depth)
    ensures ReadPairs(EncodePairs(pairs) + rest, |pairs|, depth) == Got(pairs, rest)
    decreases pairs
  {
    hide Read;
    if pairs == [] {
      assert EncodePairs(pairs) + rest == rest;
    } else {
      var tail := EncodePairs(pairs[1..]) + rest;
      assert EncodePairs(pairs) + rest == EncodePair(pairs[0]) + tail;
      PairIsRead(pairs[0], depth, tail);
      PairsAreRead(pairs[1..], depth, rest);
      PairsStep(pairs, EncodePairs(pairs) + rest, Encode(pairs[0].1) + tail, tail, depth, rest);
    }
  }

  lemma PairsStep(pairs: seq<(Frame, Frame)>, s: Bytes, s1: Bytes, s2: Bytes, depth: nat, rest: Bytes)
    requires pairs != []
    requires Read(s, depth) == Got(pairs[0].0, s1)
    requires Read(s1, depth) == Got(pairs[0].1, s2)
    requires ReadPairs(s2, |pairs| - 1, depth) == Got(pairs[1..], rest)
    ensures ReadPairs(s, |pairs|, depth) == Got(pairs, rest)
  {
    hide Read;
    assert pairs == [pairs[0]] + pairs[1..];
  }

  // ---- Whatever the reader returns could have been printed ----

  lemma LineIsOneLine(s: Bytes)
    requires ReadLine(s).Got?
    ensures OneLine(ReadLine(s).value)
  {
    var n := NewlineAt(s);
    if n == |s| {
      assert s[..n] == s;
    } else {
      assert s[..n + 1] == s[..n] + ['\n'];
      Utf8.ValidInit(s[..n], '\n');
      if n > 0 && s[n - 1] == '\r' {
        assert s[..n] == s[..n - 1] + ['\r'];
        Utf8.ValidInit(s[..n - 1], '\r');
      }
    }
  }

  /**
    Closure and progress: a frame that was read obeys every limit at its depth, and its tree has no
    more nodes than bytes were consumed.
   */
  lemma {:induction false} ReadIsReadable(s: Bytes, depth: nat)
    ensures var r := Read(s, depth);
            r.Got? ==> Readable(r.value, depth) && Nodes(r.value) <= |s| - |r.rest|
    decreases MAX_DEPTH + 1 - depth, 0
  {
    hide ReadLine, ReadScalar, ReadItems, ReadPairs;
    if Read(s, depth).Got? {
      if s[0] == '*' {
        var n := ReadLength(s[1..], MAX_COLLECTION_SIZE, BadArrayLength);
        ItemsAreReadable(n.rest, n.value, depth + 1, EofInArray);
        assert Read(s, depth).value == Array(ReadItems(n.rest, n.value, depth + 1, EofInArray).value);
      } else if s[0] == '%' {
        var n := ReadLength(s[1..], MAX_COLLECTION_SIZE, BadMapLength);
        PairsAreReadable(n.rest, n.value, depth + 1);
        assert Read(s, depth).value == Map(ReadPairs(n.rest, n.value, depth + 1).value);
      } else if s[0] == '>' {
        var n := ReadLength(s[1..], MAX_COLLECTION_SIZE, BadPushLength);
        ItemsAreReadable(n.rest, n.value, depth + 1, EofInPush);
        assert Read(s, depth).value == Push(ReadItems(n.rest, n.value, depth + 1, EofInPush).value);
      } else {
        ScalarIsReadable(s[0], s[1..], depth);
      }
    }
  }

  lemma ScalarIsReadable(tag: Byte, s: Bytes, depth: nat)
    requires depth <= MAX_DEPTH && ReadScalar(tag, s).Got?
    ensures Readable(ReadScalar(tag, s).value, depth) && Nodes(ReadScalar(tag, s).value) == 1
  {
    if tag == '+' || tag == '-' {
      LineIsOneLine(s);
    }
  }

  lemma {:induction false} ItemsAreReadable(s: Bytes, count: nat, depth: nat, fault: Fault)
    ensures var r := ReadItems(s, count, depth, fault);
            r.Got? ==> ReadableItems(r.value, depth) && NodesOfItems(r.value) <= |s| - |r.rest|
    decreases MAX_DEPTH + 1 - depth, count + 1
  {
    hide Read;
    if count > 0 && ReadItems(s, count, depth, fault).Got? {
      ReadIsReadable(s, depth);
      var first := Read(s, depth);
      ItemsAreReadable(first.rest, count - 1, depth, fault);
      ItemsPrepend(first.value, ReadItems(first.rest, count - 1, depth, fault).value, depth);
    }
  }

  lemma ItemsPrepend(f: Frame, items: seq<Frame>, depth: nat)
    requires Readable(f, depth) && ReadableItems(items, depth)
    ensures ReadableItems([f] + items, depth)
    ensures NodesOfItems([f] + items) == Nodes(f) + NodesOfItems(items)
  {
    assert ([f] + items)[1..] == items;
  }

  lemma {:induction false} PairsAreReadable(s: Bytes, count: nat, depth: nat)
    ensures var r := ReadPairs(s, count, depth);
            r.Got? ==> ReadablePairs(r.value, depth) && NodesOfPairs(r.value) <= |s| - |r.rest|
    decreases MAX_DEPTH + 1 - depth, count + 1
  {
    hide Read;
    if count > 0 && ReadPairs(s, count, depth).Got? {
      ReadIsReadable(s, depth);
      var key := Read(s, depth);
      ReadIsReadable(key.rest, depth);
      var val := Read(key.rest, depth);
      PairsAreReadable(val.rest, count - 1, depth);
      PairsPrepend((key.value, val.value), ReadPairs(val.rest, count - 1, depth).value, depth);
    }
  }

  lemma PairsPrepend(p: (Frame, Frame), pairs: seq<(Frame, Frame)>, depth: nat)
    requires ReadablePair(p, depth) && ReadablePairs(pairs, depth)
    ensures ReadablePairs([p] + pairs, depth)
    ensures NodesOfPairs([p] + pairs) == NodesOfPair(p) + NodesOfPairs(pairs)
  {
    assert ([p] + pairs)[1..] == pairs;
  }

  // ---- Main results ----

  /**
    Writing a frame in front of any bytes and reading one frame gives the frame back and leaves those
    bytes, exactly when its nesting, sizes and one-line texts are within the reader's rules.
   */
  lemma RoundTripExactly(f: Frame, rest: Bytes)
    ensures ReadFrame(Encode(f) + rest) == Got(f, rest) <==> Readable(f, 0)
  {
    hide Read, Encode;
    ReadIsReadable(Encode(f) + rest, 0);
    if Readable(f, 0) {
      FrameIsRead(f, 0, rest);
    }
  }

  /** Re-reading: what was read from any input is written canonically and read back unchanged. */
  lemma ReadThenWriteThenRead(s: Bytes, rest: Bytes)
    requires ReadFrame(s).Got?
    ensures ReadFrame(Encode(ReadFrame(s).value) + rest) == Got(ReadFrame(s).value, rest)
  {
    hide Read, Encode;
    ReadIsReadable(s, 0);
    FrameIsRead(ReadFrame(s).value, 0, rest);
  }

  /** The encoding is injective and prefix-free, whatever follows each frame. */
  lemma EncodingIsPrefixFree(f: Frame, g: Frame, afterF: Bytes, afterG: Bytes)
    requires Readable(f, 0) && Readable(g, 0)
    requires Encode(f) + afterF == Encode(g) + afterG
    ensures f == g && afterF == afterG
  {
    hide Read, Encode;
    FrameIsRead(f, 0, afterF);
    FrameIsRead(g, 0, afterG);
  }

  /** All frames of an input, in order, up to a clean end or an error. */
  function ReadStream(s: Bytes): (r: Result<seq<Frame>, ReadError>)
    decreases |s|
  {
    match ReadFrame(s)
    case Eof => Ok([])
    case Bad(e) => Err(e)
    case Got(f, rest) =>
      var fs :- ReadStream(rest);
      Ok([f] + fs)
  }

  /** Any sequence of frames written back to back is recovered in order. */
  lemma {:induction false} StreamIsRead(frames: seq<Frame>)
    requires ReadableItems(frames, 0)
    ensures ReadStream(EncodeItems(frames)) == Ok(frames)
  {
    hide Encode, Read, Readable;
    if frames == [] {
      NothingToRead();
    } else {
      FrameIsRead(frames[0], 0, EncodeItems(frames[1..]));
      StreamIsRead(frames[1..]);
      assert frames == [frames[0]] + frames[1..];
    }
  }

  lemma NothingToRead()
    ensures ReadFrame([]) == Eof
  {
  }

  // ---- What is refused ----

  predicate AnnouncesLength(tag: Byte) {
    tag == '$' || tag == '*' || tag == '%' || tag == '>'
  }

  /** A length over the limit is refused, with that length, before anything of it is read. */
  lemma OversizeIsTold(tag: Byte, n: U64, depth: nat, rest: Bytes)
    requires AnnouncesLength(tag) && depth <= 8 && n > (if tag == '$' then 16_777_216 else 100_000)
    ensures Read(Line(tag, Print(n)) + rest, depth) == Bad(FrameTooLarge(n))
  {
    hide ReadLine, ParseU64, Print;
    var s := Line(tag, Print(n)) + rest;
    LineThen(tag, Print(n), rest);
    assert s[0] == tag && s[1..] == Print(n) + CRLF + rest;
    PrintIsText(n);
    LineIsRead(Print(n), rest);
    ParsePrintU64(n);
  }

  /** A byte that starts no frame is refused. */
  lemma UnknownTypeIsTold(b: Byte, depth: nat, rest: Bytes)
    requires !AnnouncesLength(b) && b != '+' && b != '-' && b != ':' && b != '_' && depth <= 8
    ensures Read([b] + rest, depth) == Bad(InvalidTypeByte(b))
  {
    assert ([b] + rest)[0] == b;
  }

  /** The beginnings of arrays in arrays. */
  function Nested(levels: nat): Bytes {
    if levels == 0 then [] else Line('*', PrintInt(1)) + Nested(levels - 1)
  }

  /** Nine arrays in one another are refused, whatever the innermost holds. */
  lemma {:induction false} DeepIsTold(levels: nat, depth: nat, rest: Bytes)
    requires depth + levels == 9
    ensures Read(Nested(levels) + rest, depth) == Bad(NestingTooDeep)
    decreases levels
  {
    hide ReadLength, PrintInt;
    if levels > 0 {
      var body := Nested(levels - 1) + rest;
      var s := Nested(levels) + rest;
      LineThen('*', PrintInt(1), body);
      assert s == Line('*', PrintInt(1)) + body;
      assert s[0] == '*' && s[1..] == PrintInt(1) + CRLF + body;
      LengthIsRead(1, MAX_COLLECTION_SIZE, BadArrayLength, body);
      DeepIsTold(levels - 1, depth + 1, rest);
      assert ReadItems(body, 1, depth + 1, EofInArray) == Bad(NestingTooDeep);
    }
  }
}
