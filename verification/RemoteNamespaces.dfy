/** Listing and describing namespaces through a remote store. */
module RemoteNamespaces {
  import opened Text
  import opened Decimal
  import opened Frames
  import opened Commands
  import opened ClientReader
  import opened ClientCodec
  import opened Requests
  import opened Replies
  import opened Handlers
  import opened WireErrors
  import opened RemoteDecoding
  import opened Dispatcher
  import opened Connection
  import opened Verdicts
  import opened Calls
  import opened Remote
  import opened RemoteReads
  import Utf8

  // ---- Names ----

  lemma NamesImage(names: seq<Bytes>, codec: JsonCodec)
    ensures var r := Image(ValueFrame(VArray(NameValues(names)), codec));
            r.RArray? && Strings(r.items) == LossyAll(names)
  {
    hide Utf8.Lossy;
    var values := NameValues(names);
    var items := ImageItems(ValueFrames(values, codec));
    forall i | 0 <= i < |names|
      ensures items[i] == RString(Utf8.Lossy(names[i]))
    {
      LossyTwice(names[i]);
      BulkImage(Utf8.Lossy(names[i]));
    }
    StringsOfTexts(items, LossyAll(names));
  }

  lemma LossyTwice(s: Bytes)
    ensures Utf8.Lossy(Utf8.Lossy(s)) == Utf8.Lossy(s)
  {
    hide Utf8.Lossy, Utf8.Valid;
    Utf8.LossyIsValid(s);
    Utf8.LossyKeepsValid(Utf8.Lossy(s));
  }

  lemma NamesShape(p: Page)
    ensures var f := NamesFields(p);
            && |f| == (if p.cursor.Some? then 3 else 2)
            && f[0] == ("status", VString("OK")) && f[1] == ("namespaces", VArray(NameValues(p.keys)))
            && (p.cursor.Some? ==> f[2] == ("cursor", VString(p.cursor.value)))
  {
  }

  /** A page of names as the server sends it, names made UTF-8, has lengths below 2^63. */
  predicate SoundNames(p: Page) {
    && |p.keys| < TWO_TO_THE_63 && (forall i :: 0 <= i < |p.keys| ==> |Utf8.Lossy(p.keys[i])| < TWO_TO_THE_63)
    && (p.cursor.Some? ==> Utf8.Valid(p.cursor.value) && |p.cursor.value| < TWO_TO_THE_63)
  }

  lemma NamesFit(p: Page, codec: JsonCodec)
    requires SoundNames(p)
    ensures FitsFields(NamesFields(p), codec) && NamesAreText(NamesFields(p))
  {
    hide Utf8.Valid, Utf8.Lossy, NamesFields;
    NamesShape(p);
    Utf8.AsciiValid("status");
    Utf8.AsciiValid("namespaces");
    Utf8.AsciiValid("cursor");
    assert FitsField(("status", VString("OK")), codec);
    assert FitsValue(VArray(NameValues(p.keys)), codec);
    assert FitsField(("namespaces", VArray(NameValues(p.keys))), codec);
    if p.cursor.Some? {
      assert FitsField(("cursor", VString(p.cursor.value)), codec);
    }
  }

  /** A page of names arrives with the names made UTF-8 and its cursor. */
  lemma NamesSurvive(p: Page, codec: JsonCodec)
    requires SoundNames(p)
    ensures var t := Received(Success(NamesFields(p)), [], codec);
            t.Took? && t.rest == [] && DecodeNames(t.value) == Ok(Page(LossyAll(p.keys), p.cursor))
  {
    hide Received, NamesFields, GetField, Image, ValueFrame, Lookup, Utf8.Valid, Utf8.Lossy, Strings, FitsFields;
    hide NamesAreText;
    var fields := NamesFields(p);
    NamesFit(p, codec);
    NamesShape(p);
    SuccessIsReceived(fields, "namespaces", [], codec);
    SuccessIsReceived(fields, "cursor", [], codec);
    LookupSkips(fields, 1, "namespaces");
    NamesImage(p.keys, codec);
    if p.cursor.Some? {
      LookupSkips(fields, 2, "cursor");
      ImageOfText(p.cursor.value, codec);
    } else {
      LookupAbsent(fields, "cursor");
    }
  }

  // ---- Facts ----

  function MissingFromInfo(field: Bytes): StoreError {
    Misshapen("missing '" + field + "' field in NAMESPACE INFO response")
  }

  /** `namespace_info` on a reply. */
  function DecodeFacts(r: Response): Result<NamespaceFacts, StoreError> {
    var _ :- Checked(r);
    match (GetString(r, "name"), GetInt(r, "key_count"), GetInt(r, "created_at"))
    case (Some(name), Some(count), Some(at)) => Ok(NamespaceFacts(name, AsU64(count), AsU64(at)))
    case (None, _, _) => Err(MissingFromInfo("name"))
    case (_, None, _) => Err(MissingFromInfo("key_count"))
    case _ => Err(MissingFromInfo("created_at"))
  }

  predicate SoundFacts(f: NamespaceFacts) {
    Utf8.Valid(f.name) && |f.name| < TWO_TO_THE_63
  }

  lemma FactsShape(f: NamespaceFacts)
    ensures FactsFields(f) == [("status", VString("OK")), ("name", VString(f.name)),
                               ("key_count", VInteger(AsI64(f.keyCount))), ("created_at", VInteger(AsI64(f.createdAt)))]
  {
  }

  lemma FactsFit(f: NamespaceFacts, codec: JsonCodec)
    requires SoundFacts(f)
    ensures FitsFields(FactsFields(f), codec) && NamesAreText(FactsFields(f))
  {
    hide Utf8.Valid, FactsFields;
    FactsShape(f);
    Utf8.AsciiValid("status");
    Utf8.AsciiValid("name");
    Utf8.AsciiValid("key_count");
    Utf8.AsciiValid("created_at");
    assert FitsField(("status", VString("OK")), codec) && FitsField(("name", VString(f.name)), codec);
    assert FitsField(("key_count", VInteger(AsI64(f.keyCount))), codec);
    assert FitsField(("created_at", VInteger(AsI64(f.createdAt))), codec);
  }

  /** What is known of a namespace arrives unchanged, for all counts and times. */
  lemma FactsSurvive(f: NamespaceFacts, codec: JsonCodec)
    requires SoundFacts(f)
    ensures var t := Received(Success(FactsFields(f)), [], codec);
            t.Took? && t.rest == [] && DecodeFacts(t.value) == Ok(f)
  {
    hide Received, FactsFields, GetField, Image, ValueFrame, Lookup, Utf8.Valid, FitsFields, NamesAreText;
    var fields := FactsFields(f);
    FactsFit(f, codec);
    FactsShape(f);
    SuccessIsReceived(fields, "name", [], codec);
    SuccessIsReceived(fields, "key_count", [], codec);
    SuccessIsReceived(fields, "created_at", [], codec);
    LookupSkips(fields, 1, "name");
    LookupSkips(fields, 2, "key_count");
    LookupSkips(fields, 3, "created_at");
    ImageOfText(f.name, codec);
    ImageOfNumber(AsI64(f.keyCount), codec);
    ImageOfNumber(AsI64(f.createdAt), codec);
    CastRoundTrip(f.keyCount, 0);
    CastRoundTrip(f.createdAt, 0);
  }

  // ---- Calls ----

  function StoreText(r: Bytes): Bytes {
    "store error: " + r
  }

  lemma NamespacesAreTold<S>(b: Backend<S>, s: S, cursor: Option<Bytes>, limit: U64, name: Bytes)
    ensures var r := HandleNamespaces(b, s, cursor, limit);
            match b.namespaces(s, cursor, limit)
            case Ok(p) => r == Ok(NamesFields(p))
            case Err(e) => r.Err? && ErrorText(r.error) == StoreText(b.storeErrorText(e))
    ensures var r := HandleInfo(b, s, name);
            match b.info(s, name)
            case Ok(f) => r == Ok(FactsFields(f))
            case Err(e) => r.Err? && ErrorText(r.error) == StoreText(b.storeErrorText(e))
  {
    hide NamesFields, FactsFields;
  }

  function RemoteNamespaceList<S>(g: Gate<S>, l: Link<S>, cursor: Option<Bytes>, limit: U64, at: Moment)
    : (Link<S>, Result<Page, StoreError>)
  {
    var (l', t) := Call(g, l, AskNamespaces(cursor, Some(limit)), at);
    (l', if t.Took? then DecodeNames(t.value) else Err(Unreadable(t.fault)))
  }

  /** The page the store has, its names made UTF-8, if it is asked and answers; otherwise a missing field. */
  predicate NamesAre<S>(g: Gate<S>, c: Conn<S>, cmd: Command, at: Moment, result: Result<Page, StoreError>)
    requires cmd.NamespaceList? && cmd.limit.Some?
  {
    var page := g.env.backend.namespaces(c.shared.store, cmd.cursor, cmd.limit.value);
    && Blurred(result, Verdict(g, c, cmd, at), "namespaces")
    && (Handled(g, c, cmd, at) && page.Ok? && SoundNames(page.value) ==>
          result == Ok(Page(LossyAll(page.value.keys), page.value.cursor)))
    && TellsOf(g, c, cmd, at, page, if page.Err? then StoreText(g.env.backend.storeErrorText(page.error)) else [])
  }

  lemma BlurredList(msg: Bytes)
    ensures DecodeNames(RError(msg)) == Err(MissingField("namespaces"))
    ensures DecodeFacts(RError(msg)) == Err(Decoded(msg))
  {
    hide Decoded, MissingField;
  }

  /**
    A remote NAMESPACE LIST leaves the store alone. With nothing unread before, if it runs it returns the page
    of the store, its names made UTF-8; every failure looks the same.
   */
  lemma RemoteNamesAreFaithful<S>(g: Gate<S>, l: Link<S>, cursor: Option<Bytes>, limit: U64, at: Moment)
    requires l.conn.mode.Normal? && l.unread == [] && Sendable(AskNamespaces(cursor, Some(limit)), g.env.codec)
    requires Textual(Verdict(g, l.conn, NamespaceList(cursor, Some(limit)), at))
    ensures var (l', result) := RemoteNamespaceList(g, l, cursor, limit, at);
            && l'.conn.shared.store == l.conn.shared.store
            && NamesAre(g, l.conn, NamespaceList(cursor, Some(limit)), at, result)
  {
    hide Call, Received, Execute, NamesFields, Sendable, Utf8.Valid, Utf8.Lossy, DecodeKeys, DecodeNames;
    hide MissingField, ErrorText;
    hide Verdict, Handled, Reaches, FirstLine, Encode, ReadValue, Dispatches, StoreText, SoundNames;
    var q, cmd := AskNamespaces(cursor, Some(limit)), NamespaceList(cursor, Some(limit));
    CallExecutes(g, l, q, at);
    assert Meaning(q) == cmd;
    ReadVerdict(g, l.conn, cmd, at);
    var v := Verdict(g, l.conn, cmd, at);
    if v.Failure? {
      FailedCall(v, g.env.codec);
      BlurredList(FirstLine(ErrorText(v.error)));
    }
    var page := g.env.backend.namespaces(l.conn.shared.store, cursor, limit);
    NamespacesAreTold(g.env.backend, l.conn.shared.store, cursor, limit, []);
    if Handled(g, l.conn, cmd, at) && page.Ok? && SoundNames(page.value) {
      NamesSurvive(page.value, g.env.codec);
    }
  }

  function RemoteInfo<S>(g: Gate<S>, l: Link<S>, name: Bytes, at: Moment)
    : (Link<S>, Result<NamespaceFacts, StoreError>)
  {
    var (l', t) := Call(g, l, AskInfo(name), at);
    (l', if t.Took? then DecodeFacts(t.value) else Err(Unreadable(t.fault)))
  }

  /** The facts the store has, if it is asked and answers; otherwise what the first line of the answer is taken for. */
  predicate FactsAre<S>(g: Gate<S>, c: Conn<S>, cmd: Command, at: Moment, result: Result<NamespaceFacts, StoreError>)
    requires cmd.NamespaceInfo?
  {
    if !Handled(g, c, cmd, at) then result == Err(Decoded(FirstLine(TurnedAway(g, c, cmd, at))))
    else
      match g.env.backend.info(c.shared.store, cmd.name)
      case Ok(f) => SoundFacts(f) ==> result == Ok(f)
      case Err(e) => result == Err(Decoded(FirstLine(StoreText(g.env.backend.storeErrorText(e)))))
  }

  /**
    A remote NAMESPACE INFO leaves the store alone. With nothing unread before, if it runs it returns exactly
    what the store knows, and every failure as what its text is taken for.
   */
  lemma RemoteInfoIsFaithful<S>(g: Gate<S>, l: Link<S>, name: Bytes, at: Moment)
    requires l.conn.mode.Normal? && l.unread == [] && Sendable(AskInfo(name), g.env.codec)
    requires Textual(Verdict(g, l.conn, NamespaceInfo(name), at))
    ensures var (l', result) := RemoteInfo(g, l, name, at);
            && l'.conn.shared.store == l.conn.shared.store
            && FactsAre(g, l.conn, NamespaceInfo(name), at, result)
  {
    hide Call, Received, Execute, FactsFields, Sendable, Utf8.Valid, DecodeFacts, Decoded, ErrorText;
    hide Verdict, Handled, Reaches, FirstLine, Encode, ReadValue, Dispatches, StoreText, SoundFacts, TurnedAway;
    var q, cmd := AskInfo(name), NamespaceInfo(name);
    CallExecutes(g, l, q, at);
    assert Meaning(q) == cmd;
    ReadVerdict(g, l.conn, cmd, at);
    var v := Verdict(g, l.conn, cmd, at);
    if v.Failure? {
      FailedCall(v, g.env.codec);
      BlurredList(FirstLine(ErrorText(v.error)));
    }
    var facts := g.env.backend.info(l.conn.shared.store, name);
    NamespacesAreTold(g.env.backend, l.conn.shared.store, None, 0, name);
    if Handled(g, l.conn, cmd, at) && facts.Ok? && SoundFacts(facts.value) {
      FactsSurvive(facts.value, g.env.codec);
    }
  }
}
