/** From a frame to a command. */
module CommandParser {
  import opened Text
  import opened Decimal
  import opened Frames
  import opened Commands
  import Utf8

  datatype Verb =
    | VAuth | VPing | VPut | VGet | VDelete | VPutIf | VDelIf | VDelPrefix | VList | VVersions
    | VNamespace | VSubscribe | VUnsubscribe | VHealth | VConfig | VCommand | VRekey | VPipeline | VUnknown

  function VerbOf(s: Bytes): Verb {
    var u := Upper(s);
    if u == "AUTH" then VAuth
    else if u == "PING" then VPing
    else if u == "PUT" then VPut
    else if u == "GET" then VGet
    else if u == "DELETE" then VDelete
    else if u == "PUTIF" then VPutIf
    else if u == "DELIF" then VDelIf
    else if u == "DELPREFIX" then VDelPrefix
    else if u == "LIST" then VList
    else if u == "VERSIONS" then VVersions
    else if u == "NAMESPACE" then VNamespace
    else if u == "SUBSCRIBE" then VSubscribe
    else if u == "UNSUBSCRIBE" then VUnsubscribe
    else if u == "HEALTH" then VHealth
    else if u == "CONFIG" then VConfig
    else if u == "COMMAND" then VCommand
    else if u == "REKEY" then VRekey
    else if u == "PIPELINE" then VPipeline
    else VUnknown
  }

  datatype Sub = SubCreate | SubDrop | SubList | SubInfo | SubAlter | SubValidate | SubUnknown

  function SubOf(s: Bytes): Sub {
    var u := Upper(s);
    if u == "CREATE" then SubCreate
    else if u == "DROP" then SubDrop
    else if u == "LIST" then SubList
    else if u == "INFO" then SubInfo
    else if u == "ALTER" then SubAlter
    else if u == "VALIDATE" then SubValidate
    else SubUnknown
  }

  function KeywordOf(s: Bytes): Keyword {
    var u := Upper(s);
    if u == "VALUE" then KwValue
    else if u == "META" then KwMeta
    else if u == "TTL" then KwTtl
    else if u == "VERSION" then KwVersion
    else if u == "EXPECT" then KwExpect
    else if u == "PREFIX" then KwPrefix
    else if u == "CURSOR" then KwCursor
    else if u == "LIMIT" then KwLimit
    else if u == "FROM" then KwFrom
    else if u == "SCHEMA" then KwSchema
    else if u == "MAX_VERSIONS" then KwMaxVersions
    else if u == "TOMBSTONE_RETENTION" then KwRetention
    else if u == "KEY" then KwKey
    else if u == "EVENTS" then KwEvents
    else KwNone
  }

  // ---- Option lists ----

  /** The nine commands that take keyword options. */
  datatype Grammar =
    | PutOptions | GetOptions | PutIfOptions | ListOptions | VersionsOptions
    | CreateOptions | AlterOptions | NamespaceListOptions | SubscribeOptions

  datatype Options = Options(
    value: Bytes, json: Option<Json>, ttl: Option<U64>, version: Option<U64>, flag: bool,
    prefixFilter: Option<Bytes>, cursor: Option<Bytes>, limit: Option<U64>, from: Option<U64>,
    maxVersions: Option<U64>, retention: Option<U64>, key: Option<Bytes>, events: seq<Bytes>)

  const NO_OPTIONS: Options := Options([], None, None, None, false, None, None, None, None, None, None, None, [])

  /** Three commands skip what they do not understand; the others refuse it. */
  predicate Strict(g: Grammar) {
    !g.AlterOptions? && !g.NamespaceListOptions? && !g.SubscribeOptions?
  }

  datatype Role = TakesOperand | IsFlag | TakesMany | Unknown

  function RoleOf(g: Grammar, k: Keyword): Role {
    match g
    case PutOptions => if k.KwValue? || k.KwMeta? || k.KwTtl? then TakesOperand else Unknown
    case GetOptions => if k.KwVersion? then TakesOperand else if k.KwMeta? then IsFlag else Unknown
    case PutIfOptions => if k.KwExpect? || k.KwMeta? then TakesOperand else Unknown
    case ListOptions => if k.KwPrefix? || k.KwCursor? || k.KwLimit? then TakesOperand else Unknown
    case VersionsOptions => if k.KwLimit? || k.KwFrom? then TakesOperand else Unknown
    case CreateOptions => if k.KwSchema? || k.KwMaxVersions? || k.KwRetention? then TakesOperand else Unknown
    case AlterOptions => if k.KwSchema? || k.KwMaxVersions? || k.KwRetention? then TakesOperand else Unknown
    case NamespaceListOptions => if k.KwCursor? || k.KwLimit? then TakesOperand else Unknown
    case SubscribeOptions => if k.KwKey? then TakesOperand else if k.KwEvents? then TakesMany else Unknown
  }

  /** A number operand: required to parse by strict commands, dropped when it does not by the others. */
  function Number(g: Grammar, k: Keyword, operand: Bytes): Result<Option<U64>, Complaint> {
    match ParseU64(operand)
    case Some(n) => Ok(Some(n))
    case None => if Strict(g) then Err(NotANumber(k)) else Ok(None)
  }

  function JsonOperand(g: Grammar, k: Keyword, operand: Bytes, codec: JsonCodec): Result<Option<Json>, Complaint> {
    match codec.parse(operand)
    case Ok(j) => Ok(Some(j))
    case Err(detail) => if Strict(g) then Err(InvalidJson(k, detail)) else Ok(None)
  }

  /** The effect of one keyword with its operand. */
  function Apply(g: Grammar, k: Keyword, operand: Bytes, o: Options, codec: JsonCodec): Result<Options, Complaint> {
    match k
    case KwValue => Ok(o.(value := operand))
    case KwPrefix => Ok(o.(prefixFilter := Some(operand)))
    case KwCursor => Ok(o.(cursor := Some(operand)))
    case KwKey => Ok(o.(key := Some(operand)))
    case KwMeta => var j :- JsonOperand(g, k, operand, codec); Ok(o.(json := j))
    case KwSchema => var j :- JsonOperand(g, k, operand, codec); Ok(o.(json := j))
    case KwTtl => var n :- Number(g, k, operand); Ok(o.(ttl := n))
    case KwVersion => var n :- Number(g, k, operand); Ok(o.(version := n))
    case KwExpect => var n :- Number(g, k, operand); Ok(o.(version := n))
    case KwLimit => var n :- Number(g, k, operand); Ok(o.(limit := n))
    case KwFrom => var n :- Number(g, k, operand); Ok(o.(from := n))
    case KwMaxVersions => var n :- Number(g, k, operand); Ok(o.(maxVersions := n))
    case KwRetention => var n :- Number(g, k, operand); Ok(o.(retention := n))
    case _ => Ok(o)
  }

  /** A trailing keyword without operand clears its option in the lenient commands. */
  function Cleared(k: Keyword, o: Options): Options {
    match k
    case KwCursor => o.(cursor := None)
    case KwLimit => o.(limit := None)
    case KwSchema => o.(json := None)
    case KwMaxVersions => o.(maxVersions := None)
    case KwRetention => o.(retention := None)
    case _ => o
  }

  /** End of the event names that start at `i`: the next KEY keyword or the end. */
  function EventsEnd(args: seq<Bytes>, i: nat): (j: nat)
    requires i <= |args|
    ensures i <= j <= |args|
    decreases |args| - i
  {
    if i == |args| || KeywordOf(args[i]).KwKey? then i else EventsEnd(args, i + 1)
  }

  function Uppers(args: seq<Bytes>): seq<Bytes> {
    seq(|args|, i requires 0 <= i < |args| => Upper(args[i]))
  }

  /** Reads the options from position `i` on, in order; a later one replaces an earlier one. */
  function ReadOptions(g: Grammar, args: seq<Bytes>, i: nat, o: Options, codec: JsonCodec): Result<Options, Complaint>
    decreases |args| - i
  {
    if i >= |args| then Ok(o)
    else
      var k := KeywordOf(args[i]);
      match RoleOf(g, k)
      case Unknown => if Strict(g) then Err(UnexpectedArgument(args[i])) else ReadOptions(g, args, i + 1, o, codec)
      case IsFlag => ReadOptions(g, args, i + 1, o.(flag := true), codec)
      case TakesMany =>
        var j := EventsEnd(args, i + 1);
        ReadOptions(g, args, j, o.(events := o.events + Uppers(args[i + 1..j])), codec)
      case TakesOperand =>
        if i + 1 < |args| then
          var o' :- Apply(g, k, args[i + 1], o, codec);
          ReadOptions(g, args, i + 2, o', codec)
        else if Strict(g) then Err(MissingOperand(k))
        else Ok(Cleared(k, o))
  }

  // ---- Flat commands ----

  function Need(args: seq<Bytes>, least: nat, command: Bytes): Result<(), Complaint> {
    if |args| < least then Err(TooFew(command, least)) else Ok(())
  }

  function ParsePut(args: seq<Bytes>, codec: JsonCodec): Result<Command, Complaint> {
    var _ :- Need(args, 2, "PUT");
    if |args| == 3 then Ok(Put(args[0], args[1], args[2], None, None))
    else
      var o :- ReadOptions(PutOptions, args, 2, NO_OPTIONS, codec);
      Ok(Put(args[0], args[1], o.value, o.json, o.ttl))
  }

  function ParseGet(args: seq<Bytes>, codec: JsonCodec): Result<Command, Complaint> {
    var _ :- Need(args, 2, "GET");
    var o :- ReadOptions(GetOptions, args, 2, NO_OPTIONS, codec);
    Ok(Get(args[0], args[1], o.version, o.flag))
  }

  function ParseDelete(args: seq<Bytes>): Result<Command, Complaint> {
    var _ :- Need(args, 2, "DELETE");
    Ok(Delete(args[0], args[1]))
  }

  function ParsePutIf(args: seq<Bytes>, codec: JsonCodec): Result<Command, Complaint> {
    var _ :- Need(args, 5, "PUTIF");
    var o :- ReadOptions(PutIfOptions, args, 3, NO_OPTIONS, codec);
    if o.version.None? then Err(ExpectRequired)
    else Ok(PutIf(args[0], args[1], args[2], o.json, o.version.value))
  }

  function ParseDelIf(args: seq<Bytes>): Result<Command, Complaint> {
    var _ :- Need(args, 4, "DELIF");
    if !KeywordOf(args[2]).KwExpect? then Err(ExpectKeyword(args[2]))
    else
      var n := ParseU64(args[3]);
      if n.None? then Err(NotANumber(KwExpect))
      else if |args| > 4 then Err(UnexpectedArgument(args[4]))
      else Ok(DelIf(args[0], args[1], n.value))
  }

  function ParseDelPrefix(args: seq<Bytes>): Result<Command, Complaint> {
    var _ :- Need(args, 2, "DELPREFIX");
    if args[1] == [] then Err(EmptyPrefix)
    else if |args| > 2 then Err(UnexpectedArgument(args[2]))
    else Ok(DelPrefix(args[0], args[1]))
  }

  function ParseList(args: seq<Bytes>, codec: JsonCodec): Result<Command, Complaint> {
    var _ :- Need(args, 1, "LIST");
    var o :- ReadOptions(ListOptions, args, 1, NO_OPTIONS, codec);
    Ok(List(args[0], o.prefixFilter, o.cursor, o.limit))
  }

  function ParseVersions(args: seq<Bytes>, codec: JsonCodec): Result<Command, Complaint> {
    var _ :- Need(args, 2, "VERSIONS");
    var o :- ReadOptions(VersionsOptions, args, 2, NO_OPTIONS, codec);
    Ok(Versions(args[0], args[1], o.limit, o.from))
  }

  function ParseNamespace(args: seq<Bytes>, codec: JsonCodec): Result<Command, Complaint> {
    var _ :- Need(args, 1, "NAMESPACE");
    var rest := args[1..];
    match SubOf(args[0])
    case SubCreate =>
      var _ :- Need(rest, 1, "NAMESPACE CREATE");
      var o :- ReadOptions(CreateOptions, rest, 1, NO_OPTIONS, codec);
      Ok(NamespaceCreate(rest[0], o.json, o.maxVersions, o.retention))
    case SubDrop =>
      var _ :- Need(rest, 1, "NAMESPACE DROP");
      Ok(NamespaceDrop(rest[0], |rest| > 1 && Upper(rest[1]) == "FORCE"))
    case SubList =>
      var o :- ReadOptions(NamespaceListOptions, rest, 0, NO_OPTIONS, codec);
      Ok(NamespaceList(o.cursor, o.limit))
    case SubInfo =>
      var _ :- Need(rest, 1, "NAMESPACE INFO");
      Ok(NamespaceInfo(rest[0]))
    case SubAlter =>
      var _ :- Need(rest, 1, "NAMESPACE ALTER");
      var o :- ReadOptions(AlterOptions, rest, 1, NO_OPTIONS, codec);
      Ok(NamespaceAlter(rest[0], o.json, o.maxVersions, o.retention))
    case SubValidate =>
      var _ :- Need(rest, 1, "NAMESPACE VALIDATE");
      Ok(NamespaceValidate(rest[0]))
    case SubUnknown => Err(UnknownSubcommand("NAMESPACE", Upper(args[0])))
  }

  function ParseSubscribe(args: seq<Bytes>, codec: JsonCodec): Result<Command, Complaint> {
    var _ :- Need(args, 1, "SUBSCRIBE");
    var o :- ReadOptions(SubscribeOptions, args, 1, NO_OPTIONS, codec);
    Ok(Subscribe(args[0], o.key, o.events))
  }

  function ParseConfig(args: seq<Bytes>): Result<Command, Complaint> {
    var _ :- Need(args, 1, "CONFIG");
    if Upper(args[0]) == "GET" then
      var _ :- Need(args[1..], 1, "CONFIG GET");
      Ok(ConfigGet(args[1]))
    else if Upper(args[0]) == "SET" then
      var _ :- Need(args[1..], 2, "CONFIG SET");
      Ok(ConfigSet(args[1], args[2]))
    else Err(UnknownSubcommand("CONFIG", Upper(args[0])))
  }

  predicate IsHexDigit(c: Byte) {
    '0' <= c <= '9' || 'a' <= c <= 'f' || 'A' <= c <= 'F'
  }

  function ParseRekey(args: seq<Bytes>): Result<Command, Complaint> {
    if args == [] then Err(RekeyMissing)
    else if Upper(args[0]) == "STATUS" then Ok(RekeyStatus)
    else if |args[0]| != 64 then Err(RekeyLength(|args[0]|))
    else if exists i :: 0 <= i < |args[0]| && !IsHexDigit(args[0][i]) then Err(RekeyNotHex)
    else Ok(Rekey(args[0]))
  }

  function ParseCommandSub(args: seq<Bytes>): Result<Command, Complaint> {
    if args == [] || Upper(args[0]) == "LIST" then Ok(CommandList)
    else Err(UnknownSubcommand("COMMAND", args[0]))
  }

  /** A flat list of strings: the verb, then its arguments. */
  function ParseArgs(strings: seq<Bytes>, codec: JsonCodec): Result<Command, Complaint>
    requires strings != []
  {
    var args := strings[1..];
    match VerbOf(strings[0])
    case VAuth => var _ :- Need(args, 1, "AUTH"); Ok(Auth(args[0]))
    case VPing => Ok(Ping)
    case VPut => ParsePut(args, codec)
    case VGet => ParseGet(args, codec)
    case VDelete => ParseDelete(args)
    case VPutIf => ParsePutIf(args, codec)
    case VDelIf => ParseDelIf(args)
    case VDelPrefix => ParseDelPrefix(args)
    case VList => ParseList(args, codec)
    case VVersions => ParseVersions(args, codec)
    case VNamespace => ParseNamespace(args, codec)
    case VSubscribe => ParseSubscribe(args, codec)
    case VUnsubscribe => Ok(Unsubscribe)
    case VHealth => Ok(Health)
    case VConfig => ParseConfig(args)
    case VCommand => ParseCommandSub(args)
    case VRekey => ParseRekey(args)
    case _ => Err(UnknownCommand(Upper(strings[0])))
  }

  // ---- Frames ----

  /** `frame_to_string`. */
  function FrameText(f: Frame): Result<Bytes, Complaint> {
    match f
    case BulkString(d) => if Utf8.Valid(d) then Ok(d) else Err(NotUtf8Argument)
    case SimpleString(t) => Ok(t)
    case Integer(n) => Ok(PrintInt(n))
    case _ => Err(ExpectedString)
  }

  /** All elements as strings, or the first complaint. */
  function FrameTexts(parts: seq<Frame>): (r: Result<seq<Bytes>, Complaint>)
    ensures r.Ok? ==> |r.value| == |parts|
  {
    if parts == [] then Ok([])
    else
      var first :- FrameText(parts[0]);
      var others :- FrameTexts(parts[1..]);
      Ok([first] + others)
  }

  function Refused<T>(r: Result<T, Complaint>): Result<T, CommandError> {
    if r.Ok? then Ok(r.value) else Err(BadArg(r.error))
  }

  /** `parse_command`. */
  function ParseCommand(f: Frame, codec: JsonCodec): Result<Command, CommandError>
    decreases f
  {
    if !f.Array? then Err(BadArg(ExpectedArrayFrame))
    else if f.items == [] then Err(BadArg(EmptyCommand))
    else
      var verb :- Refused(FrameText(f.items[0]));
      if VerbOf(verb).VPipeline? then ParsePipeline(f.items, codec)
      else
        var strings :- Refused(FrameTexts(f.items));
        Refused(ParseArgs(strings, codec))
  }

  /** `parse_pipeline_frame` on the elements after the verb, which is element 0 here. */
  function ParsePipeline(items: seq<Frame>, codec: JsonCodec): Result<Command, CommandError>
    requires items != []
    decreases items
  {
    if |items| == 1 then Err(BadArg(EmptyPipeline))
    else
      var (start, id) :- Refused(PipelineOptions(items, 1, None));
      var commands :- ParseAll(items, start, start, codec);
      if commands == [] then Err(BadArg(EmptyPipeline)) else Ok(Pipeline(commands, id))
  }

  /** Leading REQUEST_ID options, up to the first sub-command array. */
  function PipelineOptions(items: seq<Frame>, i: nat, id: Option<Bytes>): (r: Result<(nat, Option<Bytes>), Complaint>)
    requires i <= |items|
    ensures r.Ok? ==> i <= r.value.0 <= |items|
    decreases |items| - i
  {
    if i == |items| || items[i].Array? then Ok((i, id))
    else
      var s :- FrameText(items[i]);
      if Upper(s) != "REQUEST_ID" then Err(UnexpectedPipelineKeyword(s))
      else if i + 1 >= |items| then Err(MissingRequestId)
      else
        var value :- FrameText(items[i + 1]);
        PipelineOptions(items, i + 2, Some(value))
  }

  /** Sub-commands in order; the first that does not parse aborts with its index. */
  function ParseAll(items: seq<Frame>, start: nat, i: nat, codec: JsonCodec): (r: Result<seq<Command>, CommandError>)
    requires start <= i <= |items|
    ensures r.Ok? ==> |r.value| == |items| - i
    decreases items, |items| - i
  {
    if i == |items| then Ok([])
    else
      match ParseCommand(items[i], codec)
      case Err(e) => Err(PipelineAborted(i - start, ErrorText(e)))
      case Ok(c) =>
        var others :- ParseAll(items, start, i + 1, codec);
        Ok([c] + others)
  }
}
