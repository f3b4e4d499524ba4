/** Writes through a remote store, over a connection to a server. */
module Remote {
  import opened Text
  import opened Decimal
  import opened Frames
  import opened Commands
  import opened ClientReader
  import opened ClientCodec
  import opened Requests
  import opened Replies
  import opened Handlers
  import opened WireErrors
  import opened StoreErrorTexts
  import opened RemoteDecoding
  import opened Dispatcher
  import opened ExecutionFacts
  import opened Connection
  import opened Verdicts
  import opened ConnectionTraffic
  import opened Calls
  import Utf8

  /** The request the remote store sends for a write; it has no way to pass a time to live. */
  function RequestFor(op: WriteOp): Request {
    match op
    case WPut(ns, key, value, metadata, _) =>
      if metadata.Some? then AskPutMeta(ns, key, value, metadata.value) else AskPut(ns, key, value)
    case WDelete(ns, key) => AskDelete(ns, key)
    case WPutIf(ns, key, value, metadata, expected) => AskPutIf(ns, key, value, metadata, expected)
    case WDelIf(ns, key, expected) => AskDelIf(ns, key, expected)
    case WDelPrefix(ns, prefix) => AskDelPrefix(ns, prefix)
  }

  /** The operation as the server understands it: bytes made UTF-8, no time to live. */
  function AsSent(op: WriteOp): WriteOp {
    match op
    case WPut(ns, key, value, metadata, _) => WPut(ns, Utf8.Lossy(key), Utf8.Lossy(value), metadata, None)
    case WDelete(ns, key) => WDelete(ns, Utf8.Lossy(key))
    case WPutIf(ns, key, value, metadata, expected) =>
        WPutIf(ns, Utf8.Lossy(key), Utf8.Lossy(value), metadata, expected)
    case WDelIf(ns, key, expected) => WDelIf(ns, Utf8.Lossy(key), expected)
    case WDelPrefix(ns, prefix) => WDelPrefix(ns, Utf8.Lossy(prefix))
  }

  /** Keys, values and prefixes are UTF-8, and there is no time to live. */
  predicate Portable(op: WriteOp) {
    match op
    case WPut(_, key, value, _, ttl) => Utf8.Valid(key) && Utf8.Valid(value) && ttl.None?
    case WDelete(_, key) => Utf8.Valid(key)
    case WPutIf(_, key, value, _, _) => Utf8.Valid(key) && Utf8.Valid(value)
    case WDelIf(_, key, _) => Utf8.Valid(key)
    case WDelPrefix(_, prefix) => Utf8.Valid(prefix)
  }

  /** The server is asked for the very operation exactly when it is portable; what it is asked for always is. */
  lemma SentUnchangedExactly(op: WriteOp)
    ensures Meaning(RequestFor(op)) == CommandFor(AsSent(op))
    ensures AsSent(op) == op <==> Portable(op)
    ensures Portable(AsSent(op))
  {
    hide Utf8.Valid, Utf8.Lossy;
    match op
    case WPut(_, key, value, _, _) =>
      Utf8.LossyExact(key);
      Utf8.LossyExact(value);
      Utf8.LossyIsValid(key);
      Utf8.LossyIsValid(value);
    case WDelete(_, key) =>
      Utf8.LossyExact(key);
      Utf8.LossyIsValid(key);
    case WPutIf(_, key, value, _, _) =>
      Utf8.LossyExact(key);
      Utf8.LossyExact(value);
      Utf8.LossyIsValid(key);
      Utf8.LossyIsValid(value);
    case WDelIf(_, key, _) =>
      Utf8.LossyExact(key);
      Utf8.LossyIsValid(key);
    case WDelPrefix(_, prefix) =>
      Utf8.LossyExact(prefix);
      Utf8.LossyIsValid(prefix);
  }

  function RemoteWrite<S>(g: Gate<S>, l: Link<S>, op: WriteOp, at: Moment): (Link<S>, Result<U64, StoreError>) {
    var (l', t) := Call(g, l, RequestFor(op), at);
    (l', if t.Took? then DecodeWrite(op, t.value) else Err(Unreadable(t.fault)))
  }

  /** The error the client makes of a command error: the decoding of the first line of its text. */
  function Seen(e: CommandError): StoreError {
    Decoded(FirstLine(ErrorText(e)))
  }

  /**
    What the caller of a remote store sees of a result of the store behind the server: a number, or what the
    client takes the first line of the answer for.
   */
  function Relayed(op: WriteOp, r: Result<U64, StoreError>, text: StoreError -> Bytes): Result<U64, StoreError> {
    match r
    case Ok(n) => Ok(n)
    case Err(e) => Err(Decoded(FirstLine(WriteText(op, e, text(e)))))
  }

  function WrittenFields(op: WriteOp, n: U64): Fields {
    OK_FIELDS + [(WriteField(op), VInteger(AsI64(n)))]
  }

  lemma WrittenFits(op: WriteOp, n: U64, codec: JsonCodec)
    ensures FitsFields(WrittenFields(op, n), codec) && NamesAreText(WrittenFields(op, n))
    ensures Lookup(WrittenFields(op, n), WriteField(op)) == Some(VInteger(AsI64(n)))
  {
    hide Utf8.Valid;
    var f := WrittenFields(op, n);
    Utf8.AsciiValid("status");
    Utf8.AsciiValid(WriteField(op));
    assert |f| == 2 && f[0] == ("status", VString("OK")) && f[1] == (WriteField(op), VInteger(AsI64(n)));
    assert FitsField(("status", VString("OK")), codec);
    assert |WriteField(op)| == 7 && FitsValue(VInteger(AsI64(n)), codec);
    assert FitsField((WriteField(op), VInteger(AsI64(n))), codec);
    LookupSecond(WriteField(op), VInteger(AsI64(n)), []);
    assert f == OK_FIELDS + [(WriteField(op), VInteger(AsI64(n)))] + [];
  }

  lemma WrittenIsDecoded(op: WriteOp, n: U64, codec: JsonCodec)
    ensures var t := Received(Success(WrittenFields(op, n)), [], codec);
            t.Took? && t.rest == [] && DecodeWrite(op, t.value) == Ok(n)
  {
    hide Received, FitsFields, NamesAreText, Lookup, GetField, Image, ValueFrame, Utf8.Valid, WrittenFields;
    WrittenFits(op, n, codec);
    SuccessIsReceived(WrittenFields(op, n), WriteField(op), [], codec);
    ImageOfNumber(AsI64(n), codec);
    CastRoundTrip(n, 0);
  }

  lemma FailedIsDecoded(op: WriteOp, e: CommandError, codec: JsonCodec)
    requires Utf8.Valid(ErrorText(e))
    ensures var t := Received(Failure(e), [], codec);
            && t.Took? && DecodeWrite(op, t.value) == Err(Seen(e))
            && (t.rest == [] <==> '\n' !in ErrorText(e))
  {
    hide Received, ErrorText, Decoded, GetField, FirstLine, LeftOver;
    ErrorIsReceived(e, [], codec);
    NothingLeftExactly(ErrorText(e));
  }

  // ---- Commands that do not run ----

  /** The command gets to its handler. */
  predicate Handled<S>(g: Gate<S>, c: Conn<S>, cmd: Command, at: Moment) {
    Reaches(g, c, cmd, at) && Allowed(g.env.check, cmd, c.auth)
  }

  /** The text a command that does not get to its handler is answered with. */
  function TurnedAway<S>(g: Gate<S>, c: Conn<S>, cmd: Command, at: Moment): Bytes
    requires !Handled(g, c, cmd, at) && !cmd.Auth? && !cmd.Subscribe?
  {
    if !Admits(c, at) then "permission denied: " + "rate limit exceeded"
    else if Reaches(g, c, cmd, at) then RefusalText(g.env.check, cmd, c.auth)
    else if c.auth.Some? && at.wall.None? then "internal error: " + "system clock error"
    else "not authenticated"
  }

  lemma TurnedAwayIsTold<S>(g: Gate<S>, c: Conn<S>, cmd: Command, at: Moment)
    requires !cmd.Auth? && !cmd.Subscribe? && !cmd.Pipeline?
    ensures !Handled(g, c, cmd, at) ==>
              && Verdict(g, c, cmd, at).Failure?
              && ErrorText(Verdict(g, c, cmd, at).error) == TurnedAway(g, c, cmd, at)
              && (Reaches(g, c, cmd, at) ==> Execute(g.env, cmd, c.auth, c.shared).0.store == c.shared.store)
    ensures Handled(g, c, cmd, at) ==>
              Verdict(g, c, cmd, at) == Execute(g.env, cmd, c.auth, c.shared).1
  {
    hide Execute, Admits, Allowed, RefusalText, Dispatch, ComplaintText;
    if Reaches(g, c, cmd, at) {
      LeafIsGuarded(g.env, cmd, c.auth, c.shared);
    }
    assert "not authenticated" + [] == "not authenticated";
  }

  /** The server runs the operation: the command gets to the dispatcher, is permitted, and its metadata is accepted. */
  predicate Runs<S>(g: Gate<S>, c: Conn<S>, op: WriteOp, at: Moment) {
    && Handled(g, c, CommandFor(op), at)
    && (MetadataOf(op).Some? ==> g.env.backend.metadataFault(MetadataOf(op).value).None?)
  }

  /** The text a write that does not run is answered with. */
  function NotRunText<S>(g: Gate<S>, c: Conn<S>, op: WriteOp, at: Moment): Bytes
    requires !Runs(g, c, op, at)
  {
    if !Handled(g, c, CommandFor(op), at) then TurnedAway(g, c, CommandFor(op), at)
    else "bad argument: " + ("invalid metadata: " + g.env.backend.metadataFault(MetadataOf(op).value).value)
  }

  /** A write that gets to its handler: its metadata is checked, then the store runs it. */
  lemma HandledWrite<S>(g: Gate<S>, c: Conn<S>, op: WriteOp, at: Moment)
    requires Handled(g, c, CommandFor(op), at)
    ensures var (st, v) := Execute(g.env, CommandFor(op), c.auth, c.shared);
            if Runs(g, c, op, at) then
              var (s', r) := g.env.backend.write(c.shared.store, op);
              && st == c.shared.(store := s', trace := c.shared.trace + [CommandFor(op)])
              && match r
                 case Ok(n) => v == Success(WrittenFields(op, n))
                 case Err(e) => v.Failure? && ErrorText(v.error) == WriteText(op, e, g.env.backend.storeErrorText(e))
            else
              v.Failure? && ErrorText(v.error) == NotRunText(g, c, op, at) && st.store == c.shared.store
  {
    hide WriteError, Execute, Reaches, Allowed, RefusalText, ErrorText, Dispatch, WriteText;
    LeafIsGuarded(g.env, CommandFor(op), c.auth, c.shared);
    KindOfWrite(op);
    WriteIsRouted(g.env.backend, c.shared.store, CommandFor(op));
    var r := g.env.backend.write(c.shared.store, op).1;
    if r.Err? {
      WriteErrorIsTold(op, r.error, g.env.backend.storeErrorText(r.error));
    }
    if !Runs(g, c, op, at) {
      PlainText("invalid metadata: " + g.env.backend.metadataFault(MetadataOf(op).value).value);
    }
  }

  lemma PlainText(t: Bytes)
    ensures ErrorText(BadArg(Plain(t))) == "bad argument: " + t
  {
  }

  /** What the connection does with a write: run it on the store, or refuse it and leave the store. */
  lemma WriteVerdict<S>(g: Gate<S>, c: Conn<S>, op: WriteOp, at: Moment)
    ensures var v := Verdict(g, c, CommandFor(op), at);
            if Runs(g, c, op, at) then
              var (s', r) := g.env.backend.write(c.shared.store, op);
              && Execute(g.env, CommandFor(op), c.auth, c.shared).0
                  == c.shared.(store := s', trace := c.shared.trace + [CommandFor(op)])
              && match r
                 case Ok(n) => v == Success(WrittenFields(op, n))
                 case Err(e) => v.Failure? && ErrorText(v.error) == WriteText(op, e, g.env.backend.storeErrorText(e))
            else
              && v.Failure? && ErrorText(v.error) == NotRunText(g, c, op, at)
              && (Reaches(g, c, CommandFor(op), at)
                  ==> Execute(g.env, CommandFor(op), c.auth, c.shared).0.store == c.shared.store)
  {
    hide Execute, Handled, Verdict, Reaches, ErrorText, WriteText, WrittenFields, TurnedAway;
    KindOfWrite(op);
    TurnedAwayIsTold(g, c, CommandFor(op), at);
    if Handled(g, c, CommandFor(op), at) {
      HandledWrite(g, c, op, at);
    }
  }

  lemma KindOfWrite(op: WriteOp)
    ensures IsWrite(CommandFor(op)) && WriteOf(CommandFor(op)) == op
  {
  }

  /** The verdict's frame can be read whole: it is no error, or one whose text has no newline. */
  predicate Legible(v: CommandResponse) {
    v.Failure? ==> '\n' !in ErrorText(v.error)
  }

  /** The error text of the verdict, if it is an error, is UTF-8, as every Rust string is. */
  predicate Textual(v: CommandResponse) {
    v.Failure? ==> Utf8.Valid(ErrorText(v.error))
  }

  /**
    A remote write over a link whose connection is in normal mode, at the server. If the limiter admits it,
    the connection is cleared, the context permits it and the metadata is accepted, the operation runs on
    the store behind the server exactly once; otherwise it is refused and the store is left alone. The
    operation that runs is the one sent, which is the caller's exactly when that is portable.
   */
  lemma RemoteWriteRuns<S>(g: Gate<S>, l: Link<S>, op: WriteOp, at: Moment)
    requires l.conn.mode.Normal? && Sendable(RequestFor(op), g.env.codec)
    ensures var c, c' := l.conn, RemoteWrite(g, l, op, at).0.conn;
            var sent := AsSent(op);
            if Runs(g, c, sent, at) then
              c'.shared == c.shared.(store := g.env.backend.write(c.shared.store, sent).0,
                                     trace := c.shared.trace + [CommandFor(sent)])
            else Verdict(g, c, CommandFor(sent), at).Failure? && c'.shared.store == c.shared.store
    ensures AsSent(op) == op <==> Portable(op)
  {
    hide Call, Execute, Meaning, Received, Sendable, RequestFor, CommandFor, DecodeWrite, WrittenFields, WriteError;
    hide ErrorText, Runs, Verdict, Reaches, Portable, Utf8.Valid, ReadValue, Encode, Dispatches;
    CallExecutes(g, l, RequestFor(op), at);
    SentUnchangedExactly(op);
    WriteVerdict(g, l.conn, AsSent(op), at);
    if Runs(g, l.conn, AsSent(op), at) {
      RunsReaches(g, l.conn, AsSent(op), at);
    }
  }

  /** The result is that of the operation that ran, or tells of its refusal. */
  predicate Reports<S>(g: Gate<S>, c: Conn<S>, op: WriteOp, at: Moment, result: Result<U64, StoreError>) {
    if Runs(g, c, op, at) then
      result == Relayed(op, g.env.backend.write(c.shared.store, op).1, g.env.backend.storeErrorText)
    else result == Err(Decoded(FirstLine(NotRunText(g, c, op, at))))
  }

  /**
    The same at the client. With nothing unread before, the caller sees the number or the decoding of the
    error of the operation that ran, or the decoding of the refusal; and nothing is unread afterwards
    exactly when there was no error or its text has no newline.
   */
  lemma RemoteWriteRelays<S>(g: Gate<S>, l: Link<S>, op: WriteOp, at: Moment)
    requires l.conn.mode.Normal? && l.unread == [] && Sendable(RequestFor(op), g.env.codec)
    requires Textual(Verdict(g, l.conn, CommandFor(AsSent(op)), at))
    ensures var (l', result) := RemoteWrite(g, l, op, at);
            && Reports(g, l.conn, AsSent(op), at, result)
            && (l'.unread == [] <==> Legible(Verdict(g, l.conn, CommandFor(AsSent(op)), at)))
  {
    hide Call, Execute, Meaning, Received, Sendable, RequestFor, CommandFor, DecodeWrite, WrittenFields, WriteError;
    hide ErrorText, Decoded, FirstLine, Runs, Verdict, Reaches, Portable, Utf8.Valid, Aftermath, Dispatches, Encode;
    hide ReadValue, WriteText, NotRunText, Handled, AsSent;
    CallExecutes(g, l, RequestFor(op), at);
    SentUnchangedExactly(op);
    var sent := AsSent(op);
    var v := Verdict(g, l.conn, CommandFor(sent), at);
    WriteVerdict(g, l.conn, sent, at);
    SameField(op);
    if v.Failure? {
      FailedIsDecoded(sent, v.error, g.env.codec);
    } else {
      WrittenIsDecoded(sent, g.env.backend.write(l.conn.shared.store, sent).1.value, g.env.codec);
    }
  }

  lemma RunsReaches<S>(g: Gate<S>, c: Conn<S>, op: WriteOp, at: Moment)
    requires Runs(g, c, op, at)
    ensures Reaches(g, c, CommandFor(op), at)
  {
  }

  lemma SameField(op: WriteOp)
    ensures forall r :: DecodeWrite(AsSent(op), r) == DecodeWrite(op, r)
  {
    hide Utf8.Lossy, DecodePlainWrite, DecodeGuardedWrite;
  }

  /** The errors each conditional write reports in structured form. */
  predicate Structured(op: WriteOp, e: StoreError) {
    || ((op.WPutIf? || op.WDelIf?) && e.Conflict?)
    || (op.WDelPrefix? && e.TooManyMatches?)
  }

  /**
    Successful results and structured errors pass through one server unchanged, and a conflict or an
    exceeded cap is reported only when the store behind reported exactly that to such an operation.
   */
  lemma RelayIsExact(op: WriteOp, r: Result<U64, StoreError>, text: StoreError -> Bytes, n: U64, m: U64)
    ensures r.Ok? || Structured(op, r.error) ==> Relayed(op, r, text) == r
    ensures Relayed(op, r, text) == Err(Conflict(n)) <==> r == Err(Conflict(n)) && (op.WPutIf? || op.WDelIf?)
    ensures Relayed(op, r, text) == Err(TooManyMatches(n, m)) <==> r == Err(TooManyMatches(n, m)) && op.WDelPrefix?
  {
    hide ErrorText, Decoded, Contains, FirstLine, WriteText;
    if r.Err? {
      var e := WriteError(op, r.error, text(r.error));
      WriteErrorIsTold(op, r.error, text(r.error));
      StructuredErrorsSurvive(e, n, m);
      if r.error.Conflict? {
        StructuredErrorsSurvive(e, r.error.current, m);
      } else if r.error.TooManyMatches? {
        StructuredErrorsSurvive(e, r.error.matched, r.error.cap);
      }
    }
  }

  /**
    The caller is told that the key is missing exactly when the first line of the answer says that something
    was not found: so for DELETE and DELIF of a missing key, for every write but PUT to a missing namespace,
    and otherwise only if the namespace, the key or the store's own text happens to say so.
   */
  lemma MissingIsSeenExactly(op: WriteOp, r: Result<U64, StoreError>, text: StoreError -> Bytes)
    ensures Relayed(op, r, text) == Err(Missing) <==>
            r.Err? && Contains(FirstLine(WriteText(op, r.error, text(r.error))), "not found")
    ensures r.Err? && r.error.Missing? && (op.WDelete? || op.WDelIf?) ==> Relayed(op, r, text) == Err(Missing)
    ensures r.Err? && r.error.NoNamespace? && !op.WPut? ==> Relayed(op, r, text) == Err(Missing)
  {
    hide ErrorText, Decoded, Contains, FirstLine, WriteText;
    if r.Err? {
      var e := WriteError(op, r.error, text(r.error));
      WriteErrorIsTold(op, r.error, text(r.error));
      ErrorsAreTakenExactly(e);
      if e.VersionConflict? || e.PrefixTooLarge? {
        StructuredSayOtherwise(e);
      }
      KeyIsSaid();
      NamespaceIsSaid(op.ns);
      MissingTexts(op, r.error, text(r.error));
    }
  }

  lemma MissingTexts(op: WriteOp, e: StoreError, text: Bytes)
    ensures e.Missing? && (op.WDelete? || op.WDelIf?) ==> WriteText(op, e, text) == "not found"
    ensures e.NoNamespace? && !op.WPut? ==> WriteText(op, e, text) == "namespace not found: " + op.ns
  {
    hide Contains, Print;
  }

  lemma KeyIsSaid()
    ensures Contains(FirstLine("not found"), "not found")
  {
    hide Contains, FirstLine;
    OneLineIsFirst("not found");
    ContainsSelf("not found", []);
    assert "not found" + [] == "not found";
  }

  lemma NamespaceIsSaid(ns: Bytes)
    ensures Contains(FirstLine("namespace not found: " + ns), "not found")
  {
    hide Contains, FirstLine;
    var head := "namespace not found";
    FirstLineKeeps(head, ": " + ns);
    var line := FirstLine(head + (": " + ns));
    ContainsSelf(head, line[|head|..]);
    assert line == head + line[|head|..];
    assert head == "namespace " + "not found";
    ContainsEnd(line, "namespace ", "not found");
    assert head + (": " + ns) == "namespace not found: " + ns;
  }

  lemma FirstLineKeeps(head: Bytes, tail: Bytes)
    requires '\n' !in head && head != [] && head[|head| - 1] != '\r' && tail != [] && tail[0] != '\n'
    ensures head <= FirstLine(head + tail)
  {
    var t := head + tail;
    assert t[|head|] == tail[0] && t[|head| - 1] == head[|head| - 1];
    assert forall i :: 0 <= i < |head| ==> t[i] == head[i];
  }

  /** A call on a connection the server has closed: nothing happens there, and the caller is told. */
  lemma ClosedConnectionIsTold<S>(g: Gate<S>, l: Link<S>, op: WriteOp, at: Moment)
    requires l.conn.mode.Closed? && l.unread == []
    ensures RemoteWrite(g, l, op, at) == (l, Err(Storage("protocol error: " + "connection closed")))
  {
    hide Encode, DecodeWrite, Arguments, RequestFor, ReadValue, EncodeItems, Outputs;
    var answer := EncodeItems(Outputs(Since(l.conn, l.conn)));
    NothingIsReceived(l.conn);
    assert l.unread + answer == [];
  }

  lemma NothingIsReceived<S>(c: Conn<S>)
    ensures EncodeItems(Outputs(Since(c, c))) == [] && ReadValue([]) == Failed(Fault.Closed, [])
  {
    assert Since(c, c) == [];
  }
}
