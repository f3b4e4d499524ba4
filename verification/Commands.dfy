/** Commands, their access requirements, and command errors with their texts. */
module Commands {
  import opened Text
  import opened Decimal

  /** A JSON value; its text form is left to a codec supplied from outside. */
  datatype Json =
    | JNull
    | JBool(b: bool)
    | JNumber(text: Bytes)
    | JString(text: Bytes)
    | JArray(items: seq<Json>)
    | JObject(members: seq<(Bytes, Json)>)

  datatype JsonCodec = JsonCodec(parse: Bytes -> Result<Json, Bytes>, render: Json -> Bytes)

  datatype Command =
    | Auth(token: Bytes)
    | Ping
    | Put(ns: Bytes, key: Bytes, value: Bytes, metadata: Option<Json>, ttlMs: Option<U64>)
    | Get(ns: Bytes, key: Bytes, version: Option<U64>, meta: bool)
    | Delete(ns: Bytes, key: Bytes)
    | PutIf(ns: Bytes, key: Bytes, value: Bytes, metadata: Option<Json>, expected: U64)
    | DelIf(ns: Bytes, key: Bytes, expected: U64)
    | DelPrefix(ns: Bytes, prefix: Bytes)
    | List(ns: Bytes, prefixFilter: Option<Bytes>, cursor: Option<Bytes>, limit: Option<U64>)
    | Versions(ns: Bytes, key: Bytes, limit: Option<U64>, from: Option<U64>)
    | NamespaceCreate(name: Bytes, schema: Option<Json>, maxVersions: Option<U64>, retention: Option<U64>)
    | NamespaceDrop(name: Bytes, force: bool)
    | NamespaceList(cursor: Option<Bytes>, limit: Option<U64>)
    | NamespaceInfo(name: Bytes)
    | NamespaceAlter(name: Bytes, schema: Option<Json>, maxVersions: Option<U64>, retention: Option<U64>)
    | NamespaceValidate(name: Bytes)
    | Pipeline(commands: seq<Command>, requestId: Option<Bytes>)
    | Subscribe(ns: Bytes, keyFilter: Option<Bytes>, events: seq<Bytes>)
    | Unsubscribe
    | Health
    | ConfigGet(name: Bytes)
    | ConfigSet(name: Bytes, setting: Bytes)
    | CommandList
    | Rekey(newKeyHex: Bytes)
    | RekeyStatus

  datatype Scope = Read | Write

  datatype Requirement = NoRequirement | Admin | Namespace(ns: Bytes, scope: Scope)

  /** `acl_requirement`. */
  function RequirementOf(c: Command): Requirement {
    match c
    case NamespaceCreate(_, _, _, _) => Admin
    case NamespaceDrop(_, _) => Admin
    case NamespaceAlter(_, _, _, _) => Admin
    case ConfigSet(_, _) => Admin
    case Rekey(_) => Admin
    case Get(ns, _, _, _) => Namespace(ns, Read)
    case List(ns, _, _, _) => Namespace(ns, Read)
    case Versions(ns, _, _, _) => Namespace(ns, Read)
    case NamespaceInfo(ns) => Namespace(ns, Read)
    case NamespaceValidate(ns) => Namespace(ns, Read)
    case Subscribe(ns, _, _) => Namespace(ns, Read)
    case Put(ns, _, _, _, _) => Namespace(ns, Write)
    case Delete(ns, _) => Namespace(ns, Write)
    case PutIf(ns, _, _, _, _) => Namespace(ns, Write)
    case DelIf(ns, _, _) => Namespace(ns, Write)
    case DelPrefix(ns, _) => Namespace(ns, Write)
    case _ => NoRequirement
  }

  /** Option keywords, after ASCII upper-casing. */
  datatype Keyword =
    | KwValue | KwMeta | KwTtl | KwVersion | KwExpect | KwPrefix | KwCursor | KwLimit | KwFrom
    | KwSchema | KwMaxVersions | KwRetention | KwKey | KwEvents | KwNone

  function KeywordText(k: Keyword): Bytes {
    match k
    case KwValue => "VALUE"
    case KwMeta => "META"
    case KwTtl => "TTL"
    case KwVersion => "VERSION"
    case KwExpect => "EXPECT"
    case KwPrefix => "PREFIX"
    case KwCursor => "CURSOR"
    case KwLimit => "LIMIT"
    case KwFrom => "FROM"
    case KwSchema => "SCHEMA"
    case KwMaxVersions => "MAX_VERSIONS"
    case KwRetention => "TOMBSTONE_RETENTION"
    case KwKey => "KEY"
    case KwEvents => "EVENTS"
    case KwNone => ""
  }

  /** The ways a command's arguments can be refused. */
  datatype Complaint =
    | ExpectedArrayFrame
    | EmptyCommand
    | NotUtf8Argument
    | ExpectedString
    | TooFew(command: Bytes, least: nat)
    | MissingOperand(k: Keyword)
    | NotANumber(k: Keyword)
    | InvalidJson(k: Keyword, detail: Bytes)
    | UnexpectedArgument(arg: Bytes)
    | ExpectRequired
    | EmptyPrefix
    | ExpectKeyword(arg: Bytes)
    | UnknownCommand(verb: Bytes)
    | UnknownSubcommand(command: Bytes, sub: Bytes)
    | EmptyPipeline
    | MissingRequestId
    | UnexpectedPipelineKeyword(arg: Bytes)
    | RekeyMissing
    | RekeyLength(n: nat)
    | RekeyNotHex
    | Plain(text: Bytes)

  datatype CommandError =
    | NotFound
    | NamespaceNotFound(ns: Bytes)
    | NamespaceExists(ns: Bytes)
    | NamespaceNotEmpty(ns: Bytes)
    | VersionNotFound(version: U64)
    | ValidationFailed(detail: Bytes)
    | Denied(reason: Bytes)
    | NotAuthenticated
    | NotReady(state: Bytes)
    | BadArg(complaint: Complaint)
    | PipelineAborted(index: nat, reason: Bytes)
    | VersionConflict(current: U64)
    | PrefixTooLarge(matched: U64, cap: U64)
    | Store(detail: Bytes)
    | Internal(detail: Bytes)

  function OperandText(k: Keyword): Bytes {
    match k
    case KwValue => "a value"
    case KwMeta => "a JSON value"
    case KwTtl => "a duration in milliseconds"
    case KwExpect => "a version"
    case KwPrefix => "a value"
    case KwCursor => "a value"
    case KwFrom => "a version number"
    case KwSchema => "a JSON value"
    case KwRetention => "a number (seconds)"
    case _ => "a number"
  }

  function NumberText(k: Keyword): Bytes {
    match k
    case KwTtl => "a non-negative integer (milliseconds)"
    case KwExpect => "a non-negative integer"
    case _ => "a positive integer"
  }

  const EMPTY_PREFIX_TEXT: Bytes :=
    "DELPREFIX: empty prefix " + "not allowed; use NAMESPACE " + "DROP for full-namespace " + "teardown"
  const REKEY_MISSING_TEXT: Bytes := "REKEY requires a subcommand: " + "<new_key_hex> or STATUS"
  const REKEY_LENGTH_TEXT: Bytes := "REKEY key must be 32 bytes " + "(64 hex chars), got "

  function FixedComplaintText(c: Complaint): Bytes {
    match c
    case ExpectedArrayFrame => "expected array frame"
    case EmptyCommand => "empty command"
    case NotUtf8Argument => "invalid UTF-8 in argument"
    case ExpectedString => "expected string or bulk " + "string argument"
    case ExpectRequired => "PUTIF requires EXPECT " + "<version>"
    case EmptyPrefix => EMPTY_PREFIX_TEXT
    case EmptyPipeline => "PIPELINE requires at " + "least one command"
    case MissingRequestId => "REQUEST_ID requires a value"
    case RekeyMissing => REKEY_MISSING_TEXT
    case _ => "REKEY key is not valid hex"
  }

  function ComplaintText(c: Complaint): Bytes {
    match c
    case TooFew(command, least) => command + " requires at least " + Print(least) + " argument(s)"
    case MissingOperand(k) => KeywordText(k) + " requires " + OperandText(k)
    case NotANumber(k) => KeywordText(k) + " must be " + NumberText(k)
    case InvalidJson(k, detail) => "invalid " + KeywordText(k) + " JSON: " + detail
    case UnexpectedArgument(arg) => "unexpected argument: " + arg
    case ExpectKeyword(arg) => "DELIF: expected " + "EXPECT keyword, got " + arg
    case UnknownCommand(verb) => "unknown command: " + verb
    case UnknownSubcommand(command, sub) => "unknown " + command + " subcommand: " + sub
    case UnexpectedPipelineKeyword(arg) => "unexpected PIPELINE keyword: " + arg
    case RekeyLength(n) => REKEY_LENGTH_TEXT + Print(n) + " chars"
    case Plain(text) => text
    case _ => FixedComplaintText(c)
  }

  /** The fixed beginning of an error's text. */
  function ErrorPrefix(e: CommandError): Bytes {
    match e
    case NotFound => "not found"
    case NamespaceNotFound(_) => "namespace not found: "
    case NamespaceExists(_) => "namespace already exists: "
    case NamespaceNotEmpty(_) => "namespace not empty: "
    case VersionNotFound(_) => "version not found: "
    case ValidationFailed(_) => "validation failed: "
    case Denied(_) => "permission denied: "
    case NotAuthenticated => "not authenticated"
    case NotReady(_) => "not ready: server is in "
    case BadArg(_) => "bad argument: "
    case PipelineAborted(_, _) => "pipeline aborted: command "
    case VersionConflict(_) => "VERSIONCONFLICT current="
    case PrefixTooLarge(_, _) => "PREFIXTOOLARGE matched="
    case Store(_) => "store error: "
    case Internal(_) => "internal error: "
  }

  function ErrorDetail(e: CommandError): Bytes {
    match e
    case NotFound => []
    case NamespaceNotFound(ns) => ns
    case NamespaceExists(ns) => ns
    case NamespaceNotEmpty(ns) => ns
    case VersionNotFound(version) => Print(version)
    case ValidationFailed(detail) => detail
    case Denied(reason) => reason
    case NotAuthenticated => []
    case NotReady(state) => state + " state"
    case BadArg(c) => ComplaintText(c)
    case PipelineAborted(index, reason) => Print(index) + " failed: " + reason
    case VersionConflict(current) => Print(current)
    case PrefixTooLarge(matched, cap) => Print(matched) + " limit=" + Print(cap)
    case Store(detail) => detail
    case Internal(detail) => detail
  }

  /** The `Display` text of an error, which is what the wire carries. */
  function ErrorText(e: CommandError): Bytes {
    ErrorPrefix(e) + ErrorDetail(e)
  }
}
