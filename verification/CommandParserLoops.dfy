/** The parser's keyword and pipeline loops as they run, against the parser's specification. */
module CommandParserLoops {
  import opened Text
  import opened Frames
  import opened Commands
  import opened CommandParser

  /** The keyword loop shared in form by the nine option-taking commands. */
  method ScanOptions(g: Grammar, args: seq<Bytes>, start: nat, codec: JsonCodec) returns (r: Result<Options, Complaint>)
    ensures r == ReadOptions(g, args, start, NO_OPTIONS, codec)
  {
    hide KeywordOf, RoleOf, Apply, Cleared, EventsEnd;
    var o := NO_OPTIONS;
    var i := start;
    while i < |args|
      invariant ReadOptions(g, args, i, o, codec) == ReadOptions(g, args, start, NO_OPTIONS, codec)
      decreases |args| - i
    {
      var k := KeywordOf(args[i]);
      match RoleOf(g, k)
      case TakesOperand =>
        i := i + 1;
        if i < |args| {
          o :- Apply(g, k, args[i], o, codec);
        } else if Strict(g) {
          return Err(MissingOperand(k));
        } else {
          return Ok(Cleared(k, o));
        }
        i := i + 1;
      case IsFlag =>
        o := o.(flag := true);
        i := i + 1;
      case TakesMany =>
        var events, next := ScanEvents(args, i + 1);
        o := o.(events := o.events + events);
        i := next;
      case Unknown =>
        if Strict(g) {
          return Err(UnexpectedArgument(args[i]));
        }
        i := i + 1;
    }
    return Ok(o);
  }

  /** The inner loop of SUBSCRIBE: event names up to the next KEY. */
  method ScanEvents(args: seq<Bytes>, start: nat) returns (events: seq<Bytes>, next: nat)
    requires start <= |args|
    ensures next == EventsEnd(args, start)
    ensures start <= next <= |args| && events == Uppers(args[start..next])
  {
    hide KeywordOf, Upper;
    events := [];
    next := start;
    while next < |args| && !KeywordOf(args[next]).KwKey?
      invariant start <= next <= |args|
      invariant EventsEnd(args, next) == EventsEnd(args, start)
      invariant events == Uppers(args[start..next])
    {
      events := events + [Upper(args[next])];
      next := next + 1;
    }
  }

  /** The flat commands: those with options scan them in a loop. */
  method ParseStrings(strings: seq<Bytes>, codec: JsonCodec) returns (r: Result<Command, Complaint>)
    requires strings != []
    ensures r == ParseArgs(strings, codec)
  {
    hide VerbOf, ReadOptions, SubOf, KeywordOf, Upper;
    var args := strings[1..];
    match VerbOf(strings[0])
    case VPut =>
      var _ :- Need(args, 2, "PUT");
      if |args| == 3 {
        return Ok(Put(args[0], args[1], args[2], None, None));
      }
      var scanned := ScanOptions(PutOptions, args, 2, codec);
      var o :- scanned;
      return Ok(Put(args[0], args[1], o.value, o.json, o.ttl));
    case VGet =>
      var _ :- Need(args, 2, "GET");
      var scanned := ScanOptions(GetOptions, args, 2, codec);
      var o :- scanned;
      return Ok(Get(args[0], args[1], o.version, o.flag));
    case VPutIf =>
      var _ :- Need(args, 5, "PUTIF");
      var scanned := ScanOptions(PutIfOptions, args, 3, codec);
      var o :- scanned;
      if o.version.None? {
        return Err(ExpectRequired);
      }
      return Ok(PutIf(args[0], args[1], args[2], o.json, o.version.value));
    case VList =>
      var _ :- Need(args, 1, "LIST");
      var scanned := ScanOptions(ListOptions, args, 1, codec);
      var o :- scanned;
      return Ok(List(args[0], o.prefixFilter, o.cursor, o.limit));
    case VVersions =>
      var _ :- Need(args, 2, "VERSIONS");
      var scanned := ScanOptions(VersionsOptions, args, 2, codec);
      var o :- scanned;
      return Ok(Versions(args[0], args[1], o.limit, o.from));
    case VSubscribe =>
      var _ :- Need(args, 1, "SUBSCRIBE");
      var scanned := ScanOptions(SubscribeOptions, args, 1, codec);
      var o :- scanned;
      return Ok(Subscribe(args[0], o.key, o.events));
    case VNamespace =>
      r := ParseNamespaceStrings(args, codec);
    case VAuth =>
      var _ :- Need(args, 1, "AUTH");
      return Ok(Auth(args[0]));
    case VPing => return Ok(Ping);
    case VDelete => return ParseDelete(args);
    case VDelIf => return ParseDelIf(args);
    case VDelPrefix => return ParseDelPrefix(args);
    case VUnsubscribe => return Ok(Unsubscribe);
    case VHealth => return Ok(Health);
    case VConfig => return ParseConfig(args);
    case VCommand => return ParseCommandSub(args);
    case VRekey => return ParseRekey(args);
    case _ => return Err(UnknownCommand(Upper(strings[0])));
  }

  method ParseNamespaceStrings(args: seq<Bytes>, codec: JsonCodec) returns (r: Result<Command, Complaint>)
    ensures r == ParseNamespace(args, codec)
  {
    hide ReadOptions, SubOf, Upper;
    var _ :- Need(args, 1, "NAMESPACE");
    var rest := args[1..];
    match SubOf(args[0])
    case SubCreate =>
      var _ :- Need(rest, 1, "NAMESPACE CREATE");
      var scanned := ScanOptions(CreateOptions, rest, 1, codec);
      var o :- scanned;
      return Ok(NamespaceCreate(rest[0], o.json, o.maxVersions, o.retention));
    case SubDrop =>
      var _ :- Need(rest, 1, "NAMESPACE DROP");
      return Ok(NamespaceDrop(rest[0], |rest| > 1 && Upper(rest[1]) == "FORCE"));
    case SubList =>
      var scanned := ScanOptions(NamespaceListOptions, rest, 0, codec);
      var o :- scanned;
      return Ok(NamespaceList(o.cursor, o.limit));
    case SubInfo =>
      var _ :- Need(rest, 1, "NAMESPACE INFO");
      return Ok(NamespaceInfo(rest[0]));
    case SubAlter =>
      var _ :- Need(rest, 1, "NAMESPACE ALTER");
      var scanned := ScanOptions(AlterOptions, rest, 1, codec);
      var o :- scanned;
      return Ok(NamespaceAlter(rest[0], o.json, o.maxVersions, o.retention));
    case SubValidate =>
      var _ :- Need(rest, 1, "NAMESPACE VALIDATE");
      return Ok(NamespaceValidate(rest[0]));
    case SubUnknown => return Err(UnknownSubcommand("NAMESPACE", Upper(args[0])));
  }

  /** `parse_command`, with the sub-commands of a pipeline parsed recursively. */
  method ParseOne(f: Frame, codec: JsonCodec) returns (r: Result<Command, CommandError>)
    ensures r == ParseCommand(f, codec)
    decreases f
  {
    hide FrameTexts, ParseArgs, ParsePipeline, VerbOf, FrameText;
    if !f.Array? {
      return Err(BadArg(ExpectedArrayFrame));
    }
    if f.items == [] {
      return Err(BadArg(EmptyCommand));
    }
    var verb :- Refused(FrameText(f.items[0]));
    if VerbOf(verb).VPipeline? {
      r := ParseElements(f.items, codec);
    } else {
      var strings :- Refused(FrameTexts(f.items));
      var c := ParseStrings(strings, codec);
      r := Refused(c);
    }
  }

  /** `parse_pipeline_frame`: the REQUEST_ID loop, then the loop over sub-commands. */
  method ParseElements(items: seq<Frame>, codec: JsonCodec) returns (r: Result<Command, CommandError>)
    requires items != []
    ensures r == ParsePipeline(items, codec)
    decreases items
  {
    hide ParseCommand, FrameText, Upper, ErrorText;
    if |items| == 1 {
      return Err(BadArg(EmptyPipeline));
    }
    var id := None;
    var start := 1;
    while start < |items| && !items[start].Array?
      invariant 1 <= start <= |items|
      invariant PipelineOptions(items, start, id) == PipelineOptions(items, 1, None)
    {
      var s :- Refused(FrameText(items[start]));
      if Upper(s) != "REQUEST_ID" {
        return Err(BadArg(UnexpectedPipelineKeyword(s)));
      }
      if start + 1 >= |items| {
        return Err(BadArg(MissingRequestId));
      }
      var value :- Refused(FrameText(items[start + 1]));
      id := Some(value);
      start := start + 2;
    }
    ghost var spec := ParseAll(items, start, start, codec);
    var commands: seq<Command> := [];
    assert spec.Ok? ==> commands + spec.value == spec.value;
    var i := start;
    while i < |items|
      invariant start <= i <= |items| && |commands| == i - start
      invariant spec == Extended(commands, ParseAll(items, start, i, codec))
    {
      var c := ParseOne(items[i], codec);
      if c.Err? {
        return Err(PipelineAborted(i - start, ErrorText(c.error)));
      }
      ghost var more := ParseAll(items, start, i + 1, codec);
      assert more.Ok? ==> commands + ([c.value] + more.value) == (commands + [c.value]) + more.value;
      commands := commands + [c.value];
      i := i + 1;
    }
    assert commands + [] == commands;
    if commands == [] {
      return Err(BadArg(EmptyPipeline));
    }
    return Ok(Pipeline(commands, id));
  }

  ghost function Extended(done: seq<Command>, more: Result<seq<Command>, CommandError>)
      : Result<seq<Command>, CommandError>
  {
    if more.Ok? then Ok(done + more.value) else more
  }
}
