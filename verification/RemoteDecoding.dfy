/** How the remote store turns replies back into typed results. */
module RemoteDecoding {
  import opened Text
  import opened Decimal
  import opened Commands
  import opened ClientReader
  import opened ClientCodec
  import opened Replies
  import opened Handlers
  import opened WireErrors
  import Utf8

  /** The client's complaint about bytes that are no reply; what exactly is wrong with a number is left out. */
  function FaultText(f: Fault): Bytes {
    match f
    case Closed => "connection closed"
    case EmptyLine => "empty response"
    case BadInteger => "invalid integer"
    case BadBulkLength => "invalid bulk length"
    case BadArrayLength => "invalid array length"
    case BadMapLength => "invalid map length"
    case BadPushLength => "invalid push length"
    case BadSetLength => "invalid set length"
    case BadBoolean => "invalid boolean value"
    case NotUtf8 => "stream did not contain " + "valid UTF-8"
    case ShortRead => "early eof"
    case _ => "unsupported RESP3 type"
  }

  /** Failures of the stream are connection errors, the others protocol errors. */
  function Unreadable(f: Fault): StoreError {
    if f.NotUtf8? || f.ShortRead? then Disconnected(FaultText(f)) else Storage("protocol error: " + FaultText(f))
  }

  /** The client's complaint about a reply of the wrong shape, after the error mapping. */
  function Misshapen(what: Bytes): StoreError {
    Storage("unexpected response format: " + what)
  }

  /** The remote store's own complaint about a missing field. */
  function MissingField(field: Bytes): StoreError {
    Storage("missing " + field + " field")
  }

  function MissingFromGet(field: Bytes): StoreError {
    Misshapen("missing '" + field + "' field in GET response")
  }

  /** `check_ok` followed by the error mapping. */
  function Checked(r: Response): Result<(), StoreError> {
    if r.RError? then Err(Decoded(r.text))
    else if r.RNull? then Err(Misshapen("unexpected null"))
    else Ok(())
  }

  /** Results of PUT and DELETE. */
  function DecodePlainWrite(r: Response): Result<U64, StoreError> {
    var _ :- Checked(r);
    match GetInt(r, "version")
    case Some(n) => Ok(AsU64(n))
    case None => Err(Misshapen("missing version field"))
  }

  /** Results of PUTIF, DELIF and DELPREFIX. */
  function DecodeGuardedWrite(r: Response, field: Bytes): Result<U64, StoreError> {
    if r.RError? then Err(Decoded(r.text))
    else
      match GetField(r, field)
      case Some(RInteger(n)) => Ok(AsU64(n))
      case _ => Err(MissingField(field))
  }

  function DecodeWrite(op: WriteOp, r: Response): Result<U64, StoreError> {
    if op.WPut? || op.WDelete? then DecodePlainWrite(r) else DecodeGuardedWrite(r, WriteField(op))
  }

  /** `parse_get_result`; the metadata is only present when it was asked for. */
  function DecodeEntry(r: Response, defaultMeta: Json): Result<Entry, StoreError> {
    var _ :- Checked(r);
    match (GetString(r, "key"), GetString(r, "value"), GetInt(r, "version"))
    case (Some(key), Some(value), Some(version)) => Ok(Entry(key, value, AsU64(version), defaultMeta))
    case (None, _, _) => Err(MissingFromGet("key"))
    case (_, None, _) => Err(MissingFromGet("value"))
    case _ => Err(MissingFromGet("version"))
  }

  function Strings(items: seq<Response>): seq<Bytes> {
    if items == [] then []
    else if items[0].RString? then [items[0].text] + Strings(items[1..])
    else Strings(items[1..])
  }

  /** Pages of keys; an error reply is not looked at and has no such field either. */
  function DecodePage(r: Response, field: Bytes): Result<Page, StoreError> {
    match GetField(r, field)
    case None => Err(MissingField(field))
    case Some(v) => Ok(Page(if v.RArray? then Strings(v.items) else [], GetString(r, "cursor")))
  }

  function DecodeKeys(r: Response): Result<Page, StoreError> {
    DecodePage(r, "keys")
  }

  function DecodeNames(r: Response): Result<Page, StoreError> {
    DecodePage(r, "namespaces")
  }

  function OrElse<T>(o: Option<T>, default: T): T {
    if o.Some? then o.value else default
  }

  function DecodeVersion(item: Response): VersionInfo {
    VersionInfo(
      AsU64(OrElse(GetInt(item, "version"), 0)),
      if OrElse(GetString(item, "state"), []) == "deleted" then Deleted else Active,
      AsU64(OrElse(GetInt(item, "updated_at"), 0)),
      OrElse(GetString(item, "actor"), []))
  }

  function DecodeVersions(items: seq<Response>): (r: seq<VersionInfo>)
    ensures |r| == |items| && forall i :: 0 <= i < |items| ==> r[i] == DecodeVersion(items[i])
  {
    if items == [] then [] else [DecodeVersion(items[0])] + DecodeVersions(items[1..])
  }

  /** `RemoteStore::versions` on a reply. */
  function DecodeHistory(r: Response): Result<seq<VersionInfo>, StoreError> {
    match GetField(r, "versions")
    case None => Err(MissingField("versions"))
    case Some(RArray(items)) => Ok(DecodeVersions(items))
    case _ => Err(Storage("versions not an array"))
  }

  /** The loop that collects the history. */
  method CollectVersions(items: seq<Response>) returns (entries: seq<VersionInfo>)
    ensures entries == DecodeVersions(items)
  {
    hide DecodeVersion;
    entries := [];
    var i := 0;
    while i < |items|
      invariant 0 <= i <= |items|
      invariant |entries| == i && forall k :: 0 <= k < i ==> entries[k] == DecodeVersion(items[k])
    {
      entries := entries + [DecodeVersion(items[i])];
      i := i + 1;
    }
  }

  // ---- Fields of the replies ----

  /** The first field after the status. */
  lemma LookupSecond(name: Bytes, v: Value, others: Fields)
    requires name != "status"
    ensures Lookup(OK_FIELDS + [(name, v)] + others, name) == Some(v)
  {
    var fields := OK_FIELDS + [(name, v)] + others;
    assert fields[0].0 == "status" && fields[1] == (name, v);
    assert fields[1..][0] == (name, v);
  }

  lemma LookupSkips(fields: Fields, k: nat, name: Bytes)
    requires k < |fields| && fields[k].0 == name
    requires forall i :: 0 <= i < k ==> fields[i].0 != name
    ensures Lookup(fields, name) == Some(fields[k].1)
    decreases k
  {
    if k > 0 {
      LookupSkips(fields[1..], k - 1, name);
    }
  }

  lemma LookupAbsent(fields: Fields, name: Bytes)
    requires forall i :: 0 <= i < |fields| ==> fields[i].0 != name
    ensures Lookup(fields, name) == None
    decreases |fields|
  {
    if fields != [] {
      LookupAbsent(fields[1..], name);
    }
  }

  /** Reading field `k` of a received map whose field names are distinct up to it. */
  lemma FieldAt(fields: Fields, k: nat, codec: JsonCodec)
    requires NamesAreText(fields) && k < |fields|
    requires forall i :: 0 <= i < k ==> fields[i].0 != fields[k].0
    ensures GetField(RMap(ImagePairs(FieldFrames(fields, codec))), fields[k].0)
            == Some(Image(ValueFrame(fields[k].1, codec)))
  {
    hide Utf8.Valid, Image, ValueFrame, Lookup, FindEntry, ImagePairs, FieldFrames;
    LookupSkips(fields, k, fields[k].0);
    FieldIsFound(fields, fields[k].0, codec);
  }

  // ---- Histories ----

  predicate SoundVersion(v: VersionInfo) {
    Utf8.Valid(v.actor) && |v.actor| < TWO_TO_THE_63
  }

  predicate SoundHistory(vs: seq<VersionInfo>) {
    |vs| < TWO_TO_THE_63 && forall i :: 0 <= i < |vs| ==> SoundVersion(vs[i])
  }

  lemma VersionFits(v: VersionInfo, codec: JsonCodec)
    requires SoundVersion(v)
    ensures FitsFields(VersionFields(v), codec) && NamesAreText(VersionFields(v))
  {
    hide Utf8.Valid;
    var f := VersionFields(v);
    Utf8.AsciiValid("status");
    Utf8.AsciiValid("version");
    Utf8.AsciiValid("state");
    Utf8.AsciiValid("updated_at");
    Utf8.AsciiValid("actor");
    VersionFieldNames(v);
    assert |StateText(v.state)| <= 7;
    assert FitsField(f[0], codec) && FitsField(f[1], codec) && FitsField(f[2], codec);
    assert FitsField(f[3], codec) && FitsField(f[4], codec);
  }

  lemma HistoryFits(vs: seq<VersionInfo>, codec: JsonCodec)
    requires SoundHistory(vs)
    ensures FitsFields(HistoryFields(vs), codec) && NamesAreText(HistoryFields(vs))
  {
    hide Utf8.Valid, VersionFields;
    Utf8.AsciiValid("status");
    Utf8.AsciiValid("versions");
    forall i | 0 <= i < |vs|
      ensures FitsValue(VersionValues(vs)[i], codec)
    {
      VersionFits(vs[i], codec);
    }
    var f := HistoryFields(vs);
    assert FitsField(f[0], codec) && FitsField(f[1], codec);
  }

  lemma VersionFieldNames(v: VersionInfo)
    ensures var f := VersionFields(v);
            && |f| == 5
            && f[1] == ("version", VInteger(AsI64(v.version))) && f[2] == ("state", VString(StateText(v.state)))
            && f[3] == ("updated_at", VInteger(AsI64(v.updatedAt))) && f[4] == ("actor", VString(v.actor))
            && f[0].0 == "status"
            && (forall i, j :: 0 <= i < j < 5 ==> f[i].0 != f[j].0)
  {
  }

  lemma ImageOfText(t: Bytes, codec: JsonCodec)
    requires Utf8.Valid(t)
    ensures Image(ValueFrame(VString(t), codec)) == RString(t)
  {
    Utf8.LossyKeepsValid(t);
  }

  lemma ImageOfNumber(n: I64, codec: JsonCodec)
    ensures Image(ValueFrame(VInteger(n), codec)) == RInteger(n)
  {
  }

  /** One version record decodes to itself. */
  lemma VersionIsDecoded(v: VersionInfo, codec: JsonCodec)
    requires SoundVersion(v)
    ensures DecodeVersion(RMap(ImagePairs(FieldFrames(VersionFields(v), codec)))) == v
  {
    hide Utf8.Valid, VersionFields, FieldFrames, ImagePairs, GetField, Image, ValueFrame;
    var fields := VersionFields(v);
    VersionFits(v, codec);
    VersionFieldNames(v);
    FieldAt(fields, 1, codec);
    FieldAt(fields, 2, codec);
    FieldAt(fields, 3, codec);
    FieldAt(fields, 4, codec);
    Utf8.AsciiValid(StateText(v.state));
    ImageOfText(StateText(v.state), codec);
    ImageOfText(v.actor, codec);
    ImageOfNumber(AsI64(v.version), codec);
    ImageOfNumber(AsI64(v.updatedAt), codec);
    CastRoundTrip(v.version, 0);
    CastRoundTrip(v.updatedAt, 0);
  }

  lemma HistoryImage(vs: seq<VersionInfo>, codec: JsonCodec)
    requires SoundHistory(vs)
    ensures var r := Image(ValueFrame(VArray(VersionValues(vs)), codec));
            r.RArray? && DecodeVersions(r.items) == vs
  {
    hide Utf8.Valid, VersionFields, DecodeVersion;
    var frames := ValueFrames(VersionValues(vs), codec);
    var items := ImageItems(frames);
    forall i | 0 <= i < |vs|
      ensures DecodeVersion(items[i]) == vs[i]
    {
      VersionIsDecoded(vs[i], codec);
    }
    assert DecodeVersions(items) == vs;
  }

  /**
    Version history survives the wire: for every list of records, with any versions and timestamps up
    to 2^64 - 1, handler, serializer, writer, client reader and decoder give back the same list.
   */
  lemma HistorySurvives(vs: seq<VersionInfo>, rest: Bytes, codec: JsonCodec)
    requires SoundHistory(vs)
    ensures var t := Received(Success(HistoryFields(vs)), rest, codec);
            t.Took? && t.rest == rest && DecodeHistory(t.value) == Ok(vs)
  {
    hide Received, HistoryFields, SoundHistory, GetField, Image, ValueFrame, Lookup, Utf8.Valid;
    HistoryFits(vs, codec);
    SuccessIsReceived(HistoryFields(vs), "versions", rest, codec);
    HistoryLookup(vs);
    HistoryImage(vs, codec);
  }

  lemma HistoryLookup(vs: seq<VersionInfo>)
    ensures Lookup(HistoryFields(vs), "versions") == Some(VArray(VersionValues(vs)))
  {
    LookupSecond("versions", VArray(VersionValues(vs)), []);
    assert HistoryFields(vs) == OK_FIELDS + [("versions", VArray(VersionValues(vs)))] + [];
  }
}
