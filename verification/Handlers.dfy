/** The store behind the server, as a parameter, and the handlers that route commands to it. */
module Handlers {
  import opened Text
  import opened Decimal
  import opened Commands
  import opened Replies
  import opened WireErrors
  import Utf8

  datatype Entry = Entry(key: Bytes, value: Bytes, version: U64, metadata: Json)

  datatype Page = Page(keys: seq<Bytes>, cursor: Option<Bytes>)

  datatype EntryState = Active | Deleted

  datatype VersionInfo = VersionInfo(version: U64, state: EntryState, updatedAt: U64, actor: Bytes)

  datatype NamespaceFacts = NamespaceFacts(name: Bytes, keyCount: U64, createdAt: U64)

  /** Store operations that return a version number or a count. */
  datatype WriteOp =
    | WPut(ns: Bytes, key: Bytes, value: Bytes, metadata: Option<Json>, ttlMs: Option<U64>)
    | WDelete(ns: Bytes, key: Bytes)
    | WPutIf(ns: Bytes, key: Bytes, value: Bytes, metadata: Option<Json>, expected: U64)
    | WDelIf(ns: Bytes, key: Bytes, expected: U64)
    | WDelPrefix(ns: Bytes, prefix: Bytes)

  datatype AdminOp =
    | ACreate(name: Bytes, schema: Option<Json>, maxVersions: Option<U64>, retention: Option<U64>)
    | ADrop(name: Bytes, force: bool)
    | AAlter(name: Bytes, schema: Option<Json>, maxVersions: Option<U64>, retention: Option<U64>)
    | ASetConfig(name: Bytes, setting: Bytes)
    | ARekey(newKeyHex: Bytes)

  /** The command behind a write. */
  function CommandFor(op: WriteOp): Command {
    match op
    case WPut(ns, key, value, metadata, ttl) => Put(ns, key, value, metadata, ttl)
    case WDelete(ns, key) => Delete(ns, key)
    case WPutIf(ns, key, value, metadata, expected) => PutIf(ns, key, value, metadata, expected)
    case WDelIf(ns, key, expected) => DelIf(ns, key, expected)
    case WDelPrefix(ns, prefix) => DelPrefix(ns, prefix)
  }

  /** The command behind an administrative change. */
  function AdminCommandFor(op: AdminOp): Command {
    match op
    case ACreate(name, schema, maxVersions, retention) => NamespaceCreate(name, schema, maxVersions, retention)
    case ADrop(name, force) => NamespaceDrop(name, force)
    case AAlter(name, schema, maxVersions, retention) => NamespaceAlter(name, schema, maxVersions, retention)
    case ASetConfig(name, setting) => ConfigSet(name, setting)
    case ARekey(newKeyHex) => Rekey(newKeyHex)
  }

  /** Everything the protocol needs from a store with states of type S. Only writes return a state. */
  datatype Backend<!S> = Backend(
    write: (S, WriteOp) -> (S, Result<U64, StoreError>),
    admin: (S, AdminOp) -> (S, Result<Fields, CommandError>),
    get: (S, Bytes, Bytes, Option<U64>) -> Result<Entry, StoreError>,
    list: (S, Bytes, Option<Bytes>, Option<Bytes>, U64) -> Result<Page, StoreError>,
    versions: (S, Bytes, Bytes, U64, Option<U64>) -> Result<seq<VersionInfo>, StoreError>,
    namespaces: (S, Option<Bytes>, U64) -> Result<Page, StoreError>,
    info: (S, Bytes) -> Result<NamespaceFacts, StoreError>,
    inspect: (S, Command) -> Result<Fields, CommandError>,
    commandNames: Fields,
    metadataFault: Json -> Option<Bytes>,
    storeErrorText: StoreError -> Bytes)

  const DEFAULT_LIMIT: U64 := 100

  function LimitOr(limit: Option<U64>): U64 {
    if limit.Some? then limit.value else DEFAULT_LIMIT
  }

  /** Where an error happened: namespace and key. */
  function Located(ns: Bytes, key: Bytes, text: Bytes): CommandError {
    Internal(ns + "/" + Utf8.Lossy(key) + ": " + text)
  }

  /** The error each write handler reports. */
  function WriteError(op: WriteOp, e: StoreError, text: Bytes): CommandError {
    match op
    case WPut(_, _, _, _, _) => Store(text)
    case WDelete(ns, key) =>
      (match e
       case Missing => NotFound
       case NoNamespace(_) => NamespaceNotFound(ns)
       case _ => Located(ns, key, text))
    case WPutIf(ns, key, _, _, _) =>
      (match e
       case Conflict(current) => VersionConflict(current)
       case NoNamespace(_) => NamespaceNotFound(ns)
       case Invalid(detail) => ValidationFailed(detail)
       case _ => Located(ns, key, text))
    case WDelIf(ns, key, _) =>
      (match e
       case Conflict(current) => VersionConflict(current)
       case Missing => NotFound
       case NoNamespace(_) => NamespaceNotFound(ns)
       case _ => Located(ns, key, text))
    case WDelPrefix(ns, _) =>
      (match e
       case TooManyMatches(matched, cap) => PrefixTooLarge(matched, cap)
       case NoNamespace(_) => NamespaceNotFound(ns)
       case Storage(msg) =>
         if Contains(msg, "empty prefix") then BadArg(Plain(msg)) else Internal(ns + ": " + text)
       case _ => Internal(ns + ": " + text))
  }

  function WriteField(op: WriteOp): Bytes {
    if op.WDelPrefix? then "deleted" else "version"
  }

  function MetadataOf(op: WriteOp): Option<Json> {
    match op
    case WPut(_, _, _, metadata, _) => metadata
    case WPutIf(_, _, _, metadata, _) => metadata
    case _ => None
  }

  /** The write handlers: metadata is checked first, then the store runs the operation. */
  function HandleWrite<S>(b: Backend<S>, s: S, op: WriteOp): (S, Result<Fields, CommandError>) {
    var meta := MetadataOf(op);
    if meta.Some? && b.metadataFault(meta.value).Some? then
      (s, Err(BadArg(Plain("invalid metadata: " + b.metadataFault(meta.value).value))))
    else
      var (s', r) := b.write(s, op);
      match r
      case Ok(n) => (s', Ok(OK_FIELDS + [(WriteField(op), VInteger(AsI64(n)))]))
      case Err(e) => (s', Err(WriteError(op, e, b.storeErrorText(e))))
  }

  function EntryFields(e: Entry, withMeta: bool): Fields {
    OK_FIELDS + [("key", VBytes(e.key)), ("value", VBytes(e.value)), ("version", VInteger(AsI64(e.version)))]
    + if withMeta then [("metadata", VJson(e.metadata))] else []
  }

  function HandleGet<S>(b: Backend<S>, s: S, ns: Bytes, key: Bytes, version: Option<U64>, withMeta: bool)
      : Result<Fields, CommandError>
  {
    match b.get(s, ns, key, version)
    case Ok(e) => Ok(EntryFields(e, withMeta))
    case Err(Missing) => Err(NotFound)
    case Err(NoNamespace(_)) => Err(NamespaceNotFound(ns))
    case Err(e) => Err(Located(ns, key, b.storeErrorText(e)))
  }

  function CursorField(cursor: Option<Bytes>): Fields {
    if cursor.Some? then [("cursor", VString(cursor.value))] else []
  }

  function KeyValues(keys: seq<Bytes>): (r: seq<Value>)
    ensures |r| == |keys| && forall i :: 0 <= i < |keys| ==> r[i] == VBytes(keys[i])
  {
    seq(|keys|, i requires 0 <= i < |keys| => VBytes(keys[i]))
  }

  function NameValues(names: seq<Bytes>): (r: seq<Value>)
    ensures |r| == |names| && forall i :: 0 <= i < |names| ==> r[i] == VString(Utf8.Lossy(names[i]))
  {
    seq(|names|, i requires 0 <= i < |names| => VString(Utf8.Lossy(names[i])))
  }

  function PageFields(p: Page): Fields {
    OK_FIELDS + [("keys", VArray(KeyValues(p.keys)))] + CursorField(p.cursor)
  }

  function NamesFields(p: Page): Fields {
    OK_FIELDS + [("namespaces", VArray(NameValues(p.keys)))] + CursorField(p.cursor)
  }

  function HandleList<S>(b: Backend<S>, s: S, ns: Bytes, prefix: Option<Bytes>, cursor: Option<Bytes>, limit: U64)
      : Result<Fields, CommandError>
  {
    match b.list(s, ns, prefix, cursor, limit)
    case Ok(p) => Ok(PageFields(p))
    case Err(NoNamespace(_)) => Err(NamespaceNotFound(ns))
    case Err(BadCursor(msg)) => Err(BadArg(Plain(msg)))
    case Err(e) => Err(Internal(ns + ": " + b.storeErrorText(e)))
  }

  function StateText(s: EntryState): Bytes {
    if s.Active? then "active" else "deleted"
  }

  function VersionFields(v: VersionInfo): Fields {
    OK_FIELDS + [("version", VInteger(AsI64(v.version))), ("state", VString(StateText(v.state))),
                 ("updated_at", VInteger(AsI64(v.updatedAt))), ("actor", VString(v.actor))]
  }

  function VersionValues(vs: seq<VersionInfo>): (r: seq<Value>)
    ensures |r| == |vs| && forall i :: 0 <= i < |vs| ==> r[i] == VMap(VersionFields(vs[i]))
  {
    seq(|vs|, i requires 0 <= i < |vs| => VMap(VersionFields(vs[i])))
  }

  function HistoryFields(vs: seq<VersionInfo>): Fields {
    OK_FIELDS + [("versions", VArray(VersionValues(vs)))]
  }

  function HandleVersions<S>(b: Backend<S>, s: S, ns: Bytes, key: Bytes, limit: U64, from: Option<U64>)
      : Result<Fields, CommandError>
  {
    match b.versions(s, ns, key, limit, from)
    case Ok(vs) => Ok(HistoryFields(vs))
    case Err(e) => Err(Located(ns, key, b.storeErrorText(e)))
  }

  function HandleNamespaces<S>(b: Backend<S>, s: S, cursor: Option<Bytes>, limit: U64): Result<Fields, CommandError> {
    match b.namespaces(s, cursor, limit)
    case Ok(p) => Ok(NamesFields(p))
    case Err(e) => Err(Store(b.storeErrorText(e)))
  }

  function FactsFields(f: NamespaceFacts): Fields {
    OK_FIELDS + [("name", VString(f.name)), ("key_count", VInteger(AsI64(f.keyCount))),
        ("created_at", VInteger(AsI64(f.createdAt)))]
  }

  function HandleInfo<S>(b: Backend<S>, s: S, name: Bytes): Result<Fields, CommandError> {
    match b.info(s, name)
    case Ok(f) => Ok(FactsFields(f))
    case Err(e) => Err(Store(b.storeErrorText(e)))
  }

  const AUTH_REACHED_TEXT: Bytes := "AUTH must be handled at the " + "connection level (bug: " + "reached dispatcher)"
  const SUBSCRIBE_REACHED_TEXT: Bytes := "SUBSCRIBE must be handled " + "at the connection level"

  /** `dispatch`: one match that routes every command except PIPELINE. */
  function Dispatch<S>(b: Backend<S>, s: S, c: Command): (S, Result<Fields, CommandError>)
    requires !c.Pipeline?
  {
    match c
    case Auth(_) => (s, Err(Internal(AUTH_REACHED_TEXT)))
    case Ping => (s, Ok(OK_FIELDS + [("message", VString("PONG"))]))
    case Put(ns, key, value, metadata, ttl) => HandleWrite(b, s, WPut(ns, key, value, metadata, ttl))
    case Get(ns, key, version, meta) => (s, HandleGet(b, s, ns, key, version, meta))
    case Delete(ns, key) => HandleWrite(b, s, WDelete(ns, key))
    case PutIf(ns, key, value, metadata, expected) => HandleWrite(b, s, WPutIf(ns, key, value, metadata, expected))
    case DelIf(ns, key, expected) => HandleWrite(b, s, WDelIf(ns, key, expected))
    case DelPrefix(ns, prefix) => HandleWrite(b, s, WDelPrefix(ns, prefix))
    case List(ns, prefix, cursor, limit) => (s, HandleList(b, s, ns, prefix, cursor, LimitOr(limit)))
    case Versions(ns, key, limit, from) => (s, HandleVersions(b, s, ns, key, LimitOr(limit), from))
    case NamespaceCreate(name, schema, maxVersions, retention) =>
        b.admin(s, ACreate(name, schema, maxVersions, retention))
    case NamespaceDrop(name, force) => b.admin(s, ADrop(name, force))
    case NamespaceList(cursor, limit) => (s, HandleNamespaces(b, s, cursor, LimitOr(limit)))
    case NamespaceInfo(name) => (s, HandleInfo(b, s, name))
    case NamespaceAlter(name, schema, maxVersions, retention) =>
        b.admin(s, AAlter(name, schema, maxVersions, retention))
    case ConfigSet(name, setting) => b.admin(s, ASetConfig(name, setting))
    case Rekey(newKeyHex) => b.admin(s, ARekey(newKeyHex))
    case Subscribe(_, _, _) => (s, Err(BadArg(Plain(SUBSCRIBE_REACHED_TEXT))))
    case Unsubscribe => (s, Err(BadArg(Plain("UNSUBSCRIBE: no active subscription"))))
    case Health => (s, Ok(OK_FIELDS + [("message", VString("healthy"))]))
    case CommandList => (s, Ok(b.commandNames))
    case _ => (s, b.inspect(s, c))
  }
}
