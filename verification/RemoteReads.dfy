/** Reads through a remote store, over a connection to a server. */
module RemoteReads {
  import opened Text
  import opened Decimal
  import opened Frames
  import opened Commands
  import opened ClientReader
  import opened ClientCodec
  import opened Requests
  import opened Replies
  import opened Handlers
  import opened WireErrors
  import opened StoreErrorTexts
  import opened RemoteDecoding
  import opened Dispatcher
  import opened ExecutionFacts
  import opened Connection
  import opened Verdicts
  import opened Calls
  import opened Remote
  import Utf8

  // ---- Replies ----

  function LossyAll(keys: seq<Bytes>): (r: seq<Bytes>)
    ensures |r| == |keys| && forall i :: 0 <= i < |keys| ==> r[i] == Utf8.Lossy(keys[i])
  {
    seq(|keys|, i requires 0 <= i < |keys| => Utf8.Lossy(keys[i]))
  }

  lemma {:induction false} StringsOfTexts(items: seq<Response>, texts: seq<Bytes>)
    requires |items| == |texts| && forall i :: 0 <= i < |items| ==> items[i] == RString(texts[i])
    ensures Strings(items) == texts
    decreases |items|
  {
    if items != [] {
      StringsOfTexts(items[1..], texts[1..]);
      assert texts == [texts[0]] + texts[1..];
    }
  }

  lemma KeysImage(keys: seq<Bytes>, codec: JsonCodec)
    ensures var r := Image(ValueFrame(VArray(KeyValues(keys)), codec));
            r.RArray? && Strings(r.items) == LossyAll(keys)
  {
    hide Utf8.Lossy;
    var items := ImageItems(ValueFrames(KeyValues(keys), codec));
    StringsOfTexts(items, LossyAll(keys));
  }

  predicate SoundPage(p: Page) {
    && |p.keys| < TWO_TO_THE_63 && (forall i :: 0 <= i < |p.keys| ==> |p.keys[i]| < TWO_TO_THE_63)
    && (p.cursor.Some? ==> Utf8.Valid(p.cursor.value) && |p.cursor.value| < TWO_TO_THE_63)
  }

  lemma PageShape(p: Page)
    ensures var f := PageFields(p);
            && |f| == (if p.cursor.Some? then 3 else 2)
            && f[0] == ("status", VString("OK")) && f[1] == ("keys", VArray(KeyValues(p.keys)))
            && (p.cursor.Some? ==> f[2] == ("cursor", VString(p.cursor.value)))
  {
  }

  lemma PageFits(p: Page, codec: JsonCodec)
    requires SoundPage(p)
    ensures FitsFields(PageFields(p), codec) && NamesAreText(PageFields(p))
  {
    hide Utf8.Valid, PageFields;
    PageShape(p);
    Utf8.AsciiValid("status");
    Utf8.AsciiValid("keys");
    Utf8.AsciiValid("cursor");
    assert FitsField(("status", VString("OK")), codec);
    assert FitsValue(VArray(KeyValues(p.keys)), codec);
    assert FitsField(("keys", VArray(KeyValues(p.keys))), codec);
    if p.cursor.Some? {
      assert FitsField(("cursor", VString(p.cursor.value)), codec);
    }
  }

  /** A page of keys arrives with its keys made UTF-8 and its cursor. */
  lemma PageSurvives(p: Page, codec: JsonCodec)
    requires SoundPage(p)
    ensures var t := Received(Success(PageFields(p)), [], codec);
            t.Took? && t.rest == [] && DecodeKeys(t.value) == Ok(Page(LossyAll(p.keys), p.cursor))
  {
    hide Received, PageFields, GetField, Image, ValueFrame, Lookup, Utf8.Valid, Utf8.Lossy, Strings, FitsFields;
    hide NamesAreText;
    var fields := PageFields(p);
    PageFits(p, codec);
    PageShape(p);
    SuccessIsReceived(fields, "keys", [], codec);
    SuccessIsReceived(fields, "cursor", [], codec);
    LookupSkips(fields, 1, "keys");
    KeysImage(p.keys, codec);
    if p.cursor.Some? {
      LookupSkips(fields, 2, "cursor");
      ImageOfText(p.cursor.value, codec);
    } else {
      LookupAbsent(fields, "cursor");
    }
  }

  predicate SoundEntry(e: Entry) {
    |e.key| < TWO_TO_THE_63 && |e.value| < TWO_TO_THE_63
  }

  /** The metadata as JSON text is not too long either. */
  predicate SoundMeta(e: Entry, codec: JsonCodec) {
    |codec.render(e.metadata)| < TWO_TO_THE_63
  }

  lemma EntryShape(e: Entry, withMeta: bool)
    ensures EntryFields(e, withMeta)
            == [("status", VString("OK")), ("key", VBytes(e.key)), ("value", VBytes(e.value)),
            ("version", VInteger(AsI64(e.version)))] + if withMeta then [("metadata", VJson(e.metadata))] else []
  {
  }

  lemma BytesFit(name: Bytes, d: Bytes, codec: JsonCodec)
    requires |name| < TWO_TO_THE_63 && |d| < TWO_TO_THE_63
    ensures FitsField((name, VBytes(d)), codec)
  {
  }

  lemma EntryFits(e: Entry, withMeta: bool, codec: JsonCodec)
    requires SoundEntry(e) && (withMeta ==> SoundMeta(e, codec))
    ensures FitsFields(EntryFields(e, withMeta), codec) && NamesAreText(EntryFields(e, withMeta))
  {
    hide Utf8.Valid, EntryFields;
    EntryShape(e, withMeta);
    Utf8.AsciiValid("status");
    Utf8.AsciiValid("key");
    Utf8.AsciiValid("value");
    Utf8.AsciiValid("version");
    Utf8.AsciiValid("metadata");
    assert FitsField(("status", VString("OK")), codec);
    BytesFit("key", e.key, codec);
    BytesFit("value", e.value, codec);
    assert FitsField(("version", VInteger(AsI64(e.version))), codec);
    if withMeta {
      assert FitsValue(VJson(e.metadata), codec);
      assert FitsField(("metadata", VJson(e.metadata)), codec);
    }
  }

  lemma ImageOfBytes(d: Bytes, codec: JsonCodec)
    ensures Image(ValueFrame(VBytes(d), codec)) == RString(Utf8.Lossy(d))
  {
  }

  lemma ImageOfJson(j: Json, codec: JsonCodec)
    ensures Image(ValueFrame(VJson(j), codec)) == RString(Utf8.Lossy(codec.render(j)))
  {
  }

  /** An entry arrives with key and value made UTF-8 and its version. */
  lemma EntrySurvives(e: Entry, withMeta: bool, defaultMeta: Json, codec: JsonCodec)
    requires SoundEntry(e) && (withMeta ==> SoundMeta(e, codec))
    ensures var t := Received(Success(EntryFields(e, withMeta)), [], codec);
            t.Took? && t.rest == []
                && DecodeEntry(t.value, defaultMeta)
                == Ok(Entry(Utf8.Lossy(e.key), Utf8.Lossy(e.value), e.version, defaultMeta))
  {
    hide Received, EntryFields, GetField, Image, ValueFrame, Lookup, Utf8.Valid, Utf8.Lossy, FitsFields, NamesAreText;
    var fields := EntryFields(e, withMeta);
    EntryFits(e, withMeta, codec);
    EntryShape(e, withMeta);
    SuccessIsReceived(fields, "key", [], codec);
    SuccessIsReceived(fields, "value", [], codec);
    SuccessIsReceived(fields, "version", [], codec);
    LookupSkips(fields, 1, "key");
    LookupSkips(fields, 2, "value");
    LookupSkips(fields, 3, "version");
    ImageOfBytes(e.key, codec);
    ImageOfBytes(e.value, codec);
    ImageOfNumber(AsI64(e.version), codec);
    CastRoundTrip(e.version, 0);
  }

  /** Its metadata, as JSON text, arrives with it exactly when it was asked for. */
  lemma MetadataArrivesExactly(e: Entry, withMeta: bool, codec: JsonCodec)
    requires SoundEntry(e) && (withMeta ==> SoundMeta(e, codec))
    ensures var t := Received(Success(EntryFields(e, withMeta)), [], codec);
            t.Took? && GetField(t.value, "metadata")
                       == if withMeta then Some(RString(Utf8.Lossy(codec.render(e.metadata)))) else None
  {
    hide Received, EntryFields, GetField, Image, ValueFrame, Lookup, Utf8.Valid, Utf8.Lossy, FitsFields, NamesAreText;
    var fields := EntryFields(e, withMeta);
    EntryFits(e, withMeta, codec);
    EntryShape(e, withMeta);
    SuccessIsReceived(fields, "metadata", [], codec);
    if withMeta {
      LookupSkips(fields, 4, "metadata");
      ImageOfJson(e.metadata, codec);
    } else {
      LookupAbsent(fields, "metadata");
    }
  }

  // ---- Calls ----

  predicate IsDirectRead(c: Command) {
    c.Get? || c.List? || c.Versions? || c.NamespaceList? || c.NamespaceInfo?
  }

  function DirectRead<S>(b: Backend<S>, s: S, c: Command): Result<Fields, CommandError>
    requires IsDirectRead(c)
  {
    match c
    case Get(ns, key, version, meta) => HandleGet(b, s, ns, key, version, meta)
    case List(ns, prefix, cursor, limit) => HandleList(b, s, ns, prefix, cursor, LimitOr(limit))
    case Versions(ns, key, limit, from) => HandleVersions(b, s, ns, key, LimitOr(limit), from)
    case NamespaceList(cursor, limit) => HandleNamespaces(b, s, cursor, LimitOr(limit))
    case NamespaceInfo(name) => HandleInfo(b, s, name)
  }

  /** A read that gets to its handler is answered by it, any other is turned away; neither touches the store. */
  lemma ReadVerdict<S>(g: Gate<S>, c: Conn<S>, cmd: Command, at: Moment)
    requires IsDirectRead(cmd)
    ensures var v := Verdict(g, c, cmd, at);
            && Execute(g.env, cmd, c.auth, c.shared).0.store == c.shared.store
            && if Handled(g, c, cmd, at) then
                 var r := DirectRead(g.env.backend, c.shared.store, cmd);
                 v == if r.Ok? then Success(r.value) else Failure(r.error)
               else v.Failure? && ErrorText(v.error) == TurnedAway(g, c, cmd, at)
  {
    hide HandleNamespaces, HandleInfo;
    hide HandleGet, HandleList, HandleVersions, Execute, Reaches, Verdict, Allowed, RefusalText, ErrorText, TurnedAway;
    TurnedAwayIsTold(g, c, cmd, at);
    LeafIsGuarded(g.env, cmd, c.auth, c.shared);
  }

  /** A failure is reported as a reply without its field, whatever it was. */
  predicate Blurred<T(==)>(result: Result<T, StoreError>, v: CommandResponse, field: Bytes) {
    v.Failure? ==> result == Err(MissingField(field))
  }

  /** The answer to a read that is turned away, or that the store fails, has this text. */
  predicate TellsOf<S, T>(g: Gate<S>, c: Conn<S>, cmd: Command, at: Moment, r: Result<T, StoreError>, failed: Bytes)
    requires IsDirectRead(cmd)
  {
    var v := Verdict(g, c, cmd, at);
    && (!Handled(g, c, cmd, at) ==> v.Failure? && ErrorText(v.error) == TurnedAway(g, c, cmd, at))
    && (Handled(g, c, cmd, at) && r.Err? ==> v.Failure? && ErrorText(v.error) == failed)
  }

  lemma ErrorReplies(msg: Bytes, defaultMeta: Json)
    ensures DecodeEntry(RError(msg), defaultMeta) == Err(Decoded(msg))
    ensures DecodeKeys(RError(msg)) == Err(MissingField("keys"))
    ensures DecodeHistory(RError(msg)) == Err(MissingField("versions"))
  {
    hide Decoded, MissingField;
  }

  /** An error reply at the client: its first line arrives, and nothing is left exactly when that is all. */
  lemma FailedCall(v: CommandResponse, codec: JsonCodec)
    requires v.Failure? && Textual(v)
    ensures var t := Received(v, [], codec);
            && t.Took? && t.value == RError(FirstLine(ErrorText(v.error)))
            && (t.rest == [] <==> Legible(v))
  {
    hide Received, ErrorText, FirstLine, LeftOver, Utf8.Valid;
    ErrorIsReceived(v.error, [], codec);
    NothingLeftExactly(ErrorText(v.error));
  }

  function RemoteGet<S>(g: Gate<S>, l: Link<S>, ns: Bytes, key: Bytes, version: Option<U64>, defaultMeta: Json,
                        at: Moment)
    : (Link<S>, Result<Entry, StoreError>)
  {
    var (l', t) := Call(g, l, AskGet(ns, key, version), at);
    (l', if t.Took? then DecodeEntry(t.value, defaultMeta) else Err(Unreadable(t.fault)))
  }

  /** The entry the store has, its bytes made UTF-8, if it is asked and has it; otherwise what went wrong. */
  predicate EntryIs<S>(g: Gate<S>, c: Conn<S>, cmd: Command, defaultMeta: Json, at: Moment,
                       result: Result<Entry, StoreError>)
    requires cmd.Get?
  {
    if !Handled(g, c, cmd, at) then result == Err(Decoded(FirstLine(TurnedAway(g, c, cmd, at))))
    else
      match g.env.backend.get(c.shared.store, cmd.ns, cmd.key, cmd.version)
      case Ok(e) =>
        SoundEntry(e) ==>
          && result == Ok(Entry(Utf8.Lossy(e.key), Utf8.Lossy(e.value), e.version, defaultMeta))
          && (result == Ok(e.(metadata := defaultMeta)) <==> Utf8.Valid(e.key) && Utf8.Valid(e.value))
      case Err(e) =>
        && result == Err(Decoded(FirstLine(GetText(cmd.ns, cmd.key, e, g.env.backend.storeErrorText(e)))))
        && (e.Missing? || e.NoNamespace? ==> result == Err(Missing))
  }

  /** The entry found, if one is, has lengths below 2^63. */
  predicate SoundGet<S>(g: Gate<S>, c: Conn<S>, cmd: Command)
    requires cmd.Get?
  {
    var e := g.env.backend.get(c.shared.store, cmd.ns, cmd.key, cmd.version);
    e.Ok? ==> SoundEntry(e.value)
  }

  /**
    A remote GET leaves the store alone. With nothing unread before, if it runs it looks up the key made
    UTF-8 and returns the stored entry, without metadata, with its bytes made UTF-8: the stored key and value
    exactly when they are UTF-8. A missing key and a missing namespace are reported as a missing key, and
    every other failure as what its text is taken for. Nothing is unread afterwards exactly when no error
    text with a newline came back.
   */
  lemma RemoteGetIsFaithful<S>(g: Gate<S>, l: Link<S>, ns: Bytes, key: Bytes, version: Option<U64>, defaultMeta: Json,
                               at: Moment)
    requires l.conn.mode.Normal? && l.unread == [] && Sendable(AskGet(ns, key, version), g.env.codec)
    requires Textual(Verdict(g, l.conn, Get(ns, Utf8.Lossy(key), version, false), at))
    ensures var (l', result) := RemoteGet(g, l, ns, key, version, defaultMeta, at);
            var cmd := Get(ns, Utf8.Lossy(key), version, false);
            && l'.conn.shared.store == l.conn.shared.store
            && EntryIs(g, l.conn, cmd, defaultMeta, at, result)
            && (SoundGet(g, l.conn, cmd) ==> (l'.unread == [] <==> Legible(Verdict(g, l.conn, cmd, at))))
  {
    hide Call, Received, Execute, Sendable, Utf8.Valid, Utf8.Lossy, DecodeEntry, Verdict, EntryIs, SoundGet, Legible;
    hide Reaches, Encode, ReadValue, Dispatches, Textual;
    var q := AskGet(ns, key, version);
    var cmd := Get(ns, Utf8.Lossy(key), version, false);
    CallExecutes(g, l, q, at);
    assert Meaning(q) == cmd;
    ReadVerdict(g, l.conn, cmd, at);
    EntryIsTold(g, l.conn, cmd, defaultMeta, at);
  }

  /** The verdict on a GET, at a client that had nothing unread. */
  lemma EntryIsTold<S>(g: Gate<S>, c: Conn<S>, cmd: Command, defaultMeta: Json, at: Moment)
    requires cmd.Get? && !cmd.meta && Textual(Verdict(g, c, cmd, at))
    ensures var t := Received(Verdict(g, c, cmd, at), [], g.env.codec);
            var result := if t.Took? then DecodeEntry(t.value, defaultMeta) else Err(Unreadable(t.fault));
            && EntryIs(g, c, cmd, defaultMeta, at, result)
            && (SoundGet(g, c, cmd) ==> (t.rest == [] <==> Legible(Verdict(g, c, cmd, at))))
  {
    hide Received, Execute, EntryFields, Utf8.Valid, Utf8.Lossy, DecodeEntry, Decoded, ErrorText, Verdict;
    hide Handled, FirstLine, SoundEntry;
    ReadVerdict(g, c, cmd, at);
    var v := Verdict(g, c, cmd, at);
    if v.Failure? {
      FailedCall(v, g.env.codec);
      ErrorReplies(FirstLine(ErrorText(v.error)), defaultMeta);
    }
    if Handled(g, c, cmd, at) {
      GetIsTold(g.env.backend, c.shared.store, cmd.ns, cmd.key, cmd.version, cmd.meta);
      match g.env.backend.get(c.shared.store, cmd.ns, cmd.key, cmd.version)
      case Ok(e) =>
        if SoundEntry(e) {
          EntrySurvives(e, false, defaultMeta, g.env.codec);
          Utf8.LossyExact(e.key);
          Utf8.LossyExact(e.value);
        }
      case Err(e) =>
        MissingIsTaken(cmd.ns, cmd.key, e, g.env.backend.storeErrorText(e));
    }
  }

  lemma MissingIsTaken(ns: Bytes, key: Bytes, e: StoreError, text: Bytes)
    ensures e.Missing? || e.NoNamespace? ==> Decoded(FirstLine(GetText(ns, key, e, text))) == Missing
  {
    hide Decoded, FirstLine, Contains, ErrorText, Utf8.Lossy;
    if e.Missing? {
      ErrorsAreTakenExactly(NotFound);
      KeyIsSaid();
      FixedTexts(ns);
    } else if e.NoNamespace? {
      ErrorsAreTakenExactly(NamespaceNotFound(ns));
      NamespaceIsSaid(ns);
      FixedTexts(ns);
    }
  }

  lemma FixedTexts(ns: Bytes)
    ensures ErrorText(NotFound) == "not found" && ErrorText(NamespaceNotFound(ns)) == "namespace not found: " + ns
  {
    assert "not found" + [] == "not found";
  }

  function RemoteList<S>(g: Gate<S>, l: Link<S>, ns: Bytes, prefix: Option<Bytes>, cursor: Option<Bytes>, limit: U64,
                         at: Moment)
    : (Link<S>, Result<Page, StoreError>)
  {
    var (l', t) := Call(g, l, AskList(ns, prefix, cursor, Some(limit)), at);
    (l', if t.Took? then DecodeKeys(t.value) else Err(Unreadable(t.fault)))
  }

  /** The page the store has, its keys made UTF-8, if it is asked and answers; otherwise a missing field. */
  predicate PageIs<S>(g: Gate<S>, c: Conn<S>, cmd: Command, at: Moment, result: Result<Page, StoreError>)
    requires cmd.List? && cmd.limit.Some?
  {
    var page := g.env.backend.list(c.shared.store, cmd.ns, cmd.prefixFilter, cmd.cursor, cmd.limit.value);
    && Blurred(result, Verdict(g, c, cmd, at), "keys")
    && (Handled(g, c, cmd, at) && page.Ok? && SoundPage(page.value) ==>
          result == Ok(Page(LossyAll(page.value.keys), page.value.cursor)))
    && TellsOf(g, c, cmd, at, page,
               if page.Err? then ListText(cmd.ns, page.error, g.env.backend.storeErrorText(page.error)) else [])
  }

  predicate SoundList<S>(g: Gate<S>, c: Conn<S>, cmd: Command)
    requires cmd.List? && cmd.limit.Some?
  {
    var page := g.env.backend.list(c.shared.store, cmd.ns, cmd.prefixFilter, cmd.cursor, cmd.limit.value);
    page.Ok? ==> SoundPage(page.value)
  }

  /**
    A remote LIST leaves the store alone. With nothing unread before, if it runs it returns the page of the
    store for the prefix made UTF-8, its keys made UTF-8; every failure looks the same. Nothing is unread
    afterwards exactly when no error text with a newline came back.
   */
  lemma RemoteListIsFaithful<S>(g: Gate<S>, l: Link<S>, ns: Bytes, prefix: Option<Bytes>, cursor: Option<Bytes>,
                                limit: U64, at: Moment)
    requires l.conn.mode.Normal? && l.unread == [] && Sendable(AskList(ns, prefix, cursor, Some(limit)), g.env.codec)
    requires Textual(Verdict(g, l.conn, List(ns, LossyOption(prefix), cursor, Some(limit)), at))
    ensures var (l', result) := RemoteList(g, l, ns, prefix, cursor, limit, at);
            var cmd := List(ns, LossyOption(prefix), cursor, Some(limit));
            && l'.conn.shared.store == l.conn.shared.store && PageIs(g, l.conn, cmd, at, result)
            && (SoundList(g, l.conn, cmd) ==> (l'.unread == [] <==> Legible(Verdict(g, l.conn, cmd, at))))
  {
    hide Call, Received, Execute, PageFields, Sendable, Utf8.Valid, Utf8.Lossy, DecodeKeys, DecodeNames, MissingField;
    hide ErrorText;
    hide Verdict;
    hide Handled, Reaches, FirstLine, LossyOption, Encode, ReadValue, Dispatches;
    var q := AskList(ns, prefix, cursor, Some(limit));
    var cmd := List(ns, LossyOption(prefix), cursor, Some(limit));
    CallExecutes(g, l, q, at);
    assert Meaning(q) == cmd;
    ReadVerdict(g, l.conn, cmd, at);
    var v := Verdict(g, l.conn, cmd, at);
    if v.Failure? {
      FailedCall(v, g.env.codec);
      ErrorReplies(FirstLine(ErrorText(v.error)), JNull);
    }
    var page := g.env.backend.list(l.conn.shared.store, ns, LossyOption(prefix), cursor, limit);
    ListIsTold(g.env.backend, l.conn.shared.store, ns, LossyOption(prefix), cursor, limit);
    if Handled(g, l.conn, cmd, at) && page.Ok? && SoundPage(page.value) {
      PageSurvives(page.value, g.env.codec);
    }
  }

  function RemoteVersions<S>(g: Gate<S>, l: Link<S>, ns: Bytes, key: Bytes, limit: U64, from: Option<U64>, at: Moment)
    : (Link<S>, Result<seq<VersionInfo>, StoreError>)
  {
    var (l', t) := Call(g, l, AskVersions(ns, key, Some(limit), from), at);
    (l', if t.Took? then DecodeHistory(t.value) else Err(Unreadable(t.fault)))
  }

  /** The history the store has, if it is asked and answers; otherwise a missing field. */
  predicate HistoryIs<S>(g: Gate<S>, c: Conn<S>, cmd: Command, at: Moment, result: Result<seq<VersionInfo>, StoreError>)
    requires cmd.Versions? && cmd.limit.Some?
  {
    var history := g.env.backend.versions(c.shared.store, cmd.ns, cmd.key, cmd.limit.value, cmd.from);
    && Blurred(result, Verdict(g, c, cmd, at), "versions")
    && (Handled(g, c, cmd, at) && history.Ok? && SoundHistory(history.value) ==> result == Ok(history.value))
    && TellsOf(g, c, cmd, at, history,
               if history.Err? then VersionsText(cmd.ns, cmd.key, g.env.backend.storeErrorText(history.error)) else [])
  }

  predicate SoundVersions<S>(g: Gate<S>, c: Conn<S>, cmd: Command)
    requires cmd.Versions? && cmd.limit.Some?
  {
    var history := g.env.backend.versions(c.shared.store, cmd.ns, cmd.key, cmd.limit.value, cmd.from);
    history.Ok? ==> SoundHistory(history.value)
  }

  /**
    A remote VERSIONS leaves the store alone. With nothing unread before, if it runs it returns exactly the
    history the store returned for the key made UTF-8; every failure looks the same. Nothing is unread
    afterwards exactly when no error text with a newline came back.
   */
  lemma RemoteVersionsIsFaithful<S>(g: Gate<S>, l: Link<S>, ns: Bytes, key: Bytes, limit: U64, from: Option<U64>,
                                    at: Moment)
    requires l.conn.mode.Normal? && l.unread == [] && Sendable(AskVersions(ns, key, Some(limit), from), g.env.codec)
    requires Textual(Verdict(g, l.conn, Versions(ns, Utf8.Lossy(key), Some(limit), from), at))
    ensures var (l', result) := RemoteVersions(g, l, ns, key, limit, from, at);
            var cmd := Versions(ns, Utf8.Lossy(key), Some(limit), from);
            && l'.conn.shared.store == l.conn.shared.store && HistoryIs(g, l.conn, cmd, at, result)
            && (SoundVersions(g, l.conn, cmd) ==> (l'.unread == [] <==> Legible(Verdict(g, l.conn, cmd, at))))
  {
    hide Call, Received, Execute, HistoryFields, Sendable, Utf8.Valid, Utf8.Lossy, DecodeHistory, SoundHistory;
    hide MissingField;
    hide ErrorText, Verdict, Handled, Reaches, FirstLine, Encode, ReadValue, Dispatches;
    var q := AskVersions(ns, key, Some(limit), from);
    var cmd := Versions(ns, Utf8.Lossy(key), Some(limit), from);
    CallExecutes(g, l, q, at);
    assert Meaning(q) == cmd;
    ReadVerdict(g, l.conn, cmd, at);
    var v := Verdict(g, l.conn, cmd, at);
    if v.Failure? {
      FailedCall(v, g.env.codec);
      ErrorReplies(FirstLine(ErrorText(v.error)), JNull);
    }
    var history := g.env.backend.versions(l.conn.shared.store, ns, Utf8.Lossy(key), limit, from);
    VersionsIsTold(g.env.backend, l.conn.shared.store, ns, Utf8.Lossy(key), limit, from);
    if Handled(g, l.conn, cmd, at) && history.Ok? && SoundHistory(history.value) {
      HistorySurvives(history.value, [], g.env.codec);
    }
  }
}
