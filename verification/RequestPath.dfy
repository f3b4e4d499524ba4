/** A request built by the client is the command the server runs. */
module RequestPath {
  import opened Text
  import opened Decimal
  import opened Frames
  import opened Commands
  import opened CommandParser
  import opened ClientIO
  import opened Requests
  import ServerReader
  import ServerCodec
  import Utf8

  // ---- The words of the protocol ----

  lemma DataVerbs()
    ensures VerbOf("AUTH") == VAuth && VerbOf("PING") == VPing && VerbOf("PUT") == VPut
    ensures VerbOf("GET") == VGet && VerbOf("DELETE") == VDelete && VerbOf("PUTIF") == VPutIf
    ensures VerbOf("DELIF") == VDelIf && VerbOf("DELPREFIX") == VDelPrefix
  {
    UpperFixed("AUTH");
    UpperFixed("PING");
    UpperFixed("PUT");
    UpperFixed("GET");
    UpperFixed("DELETE");
    UpperFixed("PUTIF");
    UpperFixed("DELIF");
    UpperFixed("DELPREFIX");
  }

  lemma OtherVerbs()
    ensures VerbOf("LIST") == VList && VerbOf("VERSIONS") == VVersions && VerbOf("NAMESPACE") == VNamespace
    ensures VerbOf("PIPELINE") == VPipeline
  {
    hide VerbOf;
    ScanVerbs();
    GroupVerbs();
  }

  lemma ScanVerbs()
    ensures VerbOf("LIST") == VList && VerbOf("VERSIONS") == VVersions
  {
    UpperFixed("LIST");
    UpperFixed("VERSIONS");
  }

  lemma GroupVerbs()
    ensures VerbOf("NAMESPACE") == VNamespace && VerbOf("PIPELINE") == VPipeline
  {
    UpperFixed("NAMESPACE");
    UpperFixed("PIPELINE");
  }

  lemma OperationalVerbs()
    ensures VerbOf("SUBSCRIBE") == VSubscribe && VerbOf("HEALTH") == VHealth
    ensures VerbOf("CONFIG") == VConfig && VerbOf("COMMAND") == VCommand
  {
    hide VerbOf;
    StreamingVerbs();
    ServiceVerbs();
  }

  lemma StreamingVerbs()
    ensures VerbOf("SUBSCRIBE") == VSubscribe && VerbOf("HEALTH") == VHealth
  {
    UpperFixed("SUBSCRIBE");
    UpperFixed("HEALTH");
  }

  lemma ServiceVerbs()
    ensures VerbOf("CONFIG") == VConfig && VerbOf("COMMAND") == VCommand
  {
    UpperFixed("CONFIG");
    UpperFixed("COMMAND");
  }

  lemma Subcommands()
    ensures SubOf("CREATE") == SubCreate && SubOf("DROP") == SubDrop && SubOf("LIST") == SubList
    ensures SubOf("INFO") == SubInfo && SubOf("ALTER") == SubAlter && SubOf("VALIDATE") == SubValidate
  {
    UpperFixed("CREATE");
    UpperFixed("DROP");
    UpperFixed("LIST");
    UpperFixed("INFO");
    UpperFixed("ALTER");
    UpperFixed("VALIDATE");
  }

  // ---- Requests with options ----

  lemma PutMetaIsParsed(ns: Bytes, key: Bytes, value: Bytes, meta: Json, codec: JsonCodec)
    requires Faithful(Some(meta), codec)
    ensures ParsePut([ns, key] + Tokens([Clause(KwValue, value), Clause(KwMeta, codec.render(meta))]), codec)
            == Ok(Put(ns, key, value, Some(meta), None))
  {
    hide KeywordText, ReadOptions;
    var cs := [Clause(KwValue, value), Clause(KwMeta, codec.render(meta))];
    var o := NO_OPTIONS.(value := value);
    ClausesAreRead(PutOptions, [ns, key], cs, NO_OPTIONS, codec);
    assert cs[1..] == [Clause(KwMeta, codec.render(meta))];
    assert cs[1..][1..] == [];
    assert |Tokens(cs)| == 4 by {
      assert |Tokens(cs[1..])| == 2;
    }
    assert Effect(PutOptions, cs, NO_OPTIONS, codec) == Effect(PutOptions, cs[1..], o, codec);
    assert Effect(PutOptions, cs[1..], o, codec) == Ok(o.(json := Some(meta)));
  }

  lemma GetIsParsed(ns: Bytes, key: Bytes, version: Option<U64>, codec: JsonCodec)
    ensures ParseGet([ns, key] + Tokens(Opt(KwVersion, Printed(version))), codec) == Ok(Get(ns, key, version, false))
  {
    hide KeywordText, ReadOptions, Effect, Tokens;
    ClausesAreRead(GetOptions, [ns, key], Opt(KwVersion, Printed(version)), NO_OPTIONS, codec);
    NumberOption(GetOptions, KwVersion, version, NO_OPTIONS, codec);
  }

  lemma PutIfIsParsed(ns: Bytes, key: Bytes, value: Bytes, metadata: Option<Json>, expected: U64, codec: JsonCodec)
    requires Faithful(metadata, codec)
    ensures ParsePutIf([ns, key, value]
            + Tokens([Clause(KwExpect, Print(expected))] + Opt(KwMeta, Rendered(metadata, codec))), codec)
            == Ok(PutIf(ns, key, value, metadata, expected))
  {
    hide KeywordText, ReadOptions, Effect, Print;
    var a, b := Opt(KwExpect, Printed(Some(expected))), Opt(KwMeta, Rendered(metadata, codec));
    assert a == [Clause(KwExpect, Print(expected))];
    ClausesAreRead(PutIfOptions, [ns, key, value], a + b, NO_OPTIONS, codec);
    NumberOption(PutIfOptions, KwExpect, Some(expected), NO_OPTIONS, codec);
    EffectConcat(PutIfOptions, a, b, NO_OPTIONS, codec);
    JsonOption(PutIfOptions, KwMeta, metadata, NO_OPTIONS.(version := Some(expected)), codec);
    assert |Tokens(a + b)| >= 2;
  }

  lemma ListIsParsed(ns: Bytes, prefix: Option<Bytes>, cursor: Option<Bytes>, limit: Option<U64>, codec: JsonCodec)
    ensures ParseList([ns]
            + Tokens(Opt(KwPrefix, prefix) + Opt(KwCursor, cursor) + Opt(KwLimit, Printed(limit))), codec)
            == Ok(List(ns, prefix, cursor, limit))
  {
    hide KeywordText, ReadOptions, Effect, Tokens;
    var a, b, c := Opt(KwPrefix, prefix), Opt(KwCursor, cursor), Opt(KwLimit, Printed(limit));
    ClausesAreRead(ListOptions, [ns], a + b + c, NO_OPTIONS, codec);
    EffectConcat(ListOptions, a + b, c, NO_OPTIONS, codec);
    EffectConcat(ListOptions, a, b, NO_OPTIONS, codec);
    EffectOpt(ListOptions, KwPrefix, prefix, NO_OPTIONS, codec);
    var o := NO_OPTIONS.(prefixFilter := prefix);
    EffectOpt(ListOptions, KwCursor, cursor, o, codec);
    NumberOption(ListOptions, KwLimit, limit, o.(cursor := cursor), codec);
  }

  lemma VersionsIsParsed(ns: Bytes, key: Bytes, limit: Option<U64>, from: Option<U64>, codec: JsonCodec)
    ensures ParseVersions([ns, key] + Tokens(Opt(KwLimit, Printed(limit)) + Opt(KwFrom, Printed(from))), codec)
            == Ok(Versions(ns, key, limit, from))
  {
    hide KeywordText, ReadOptions, Effect, Tokens;
    var a, b := Opt(KwLimit, Printed(limit)), Opt(KwFrom, Printed(from));
    ClausesAreRead(VersionsOptions, [ns, key], a + b, NO_OPTIONS, codec);
    EffectConcat(VersionsOptions, a, b, NO_OPTIONS, codec);
    NumberOption(VersionsOptions, KwLimit, limit, NO_OPTIONS, codec);
    NumberOption(VersionsOptions, KwFrom, from, NO_OPTIONS.(limit := limit), codec);
  }

  lemma SettingsAreRead(g: Grammar, name: Bytes, maxVersions: Option<U64>, retention: Option<U64>,
                        schema: Option<Json>, codec: JsonCodec)
    requires g.CreateOptions? || g.AlterOptions?
    requires Faithful(schema, codec)
    ensures ReadOptions(g, [name] + Tokens(Settings(maxVersions, retention, schema, codec)), 1, NO_OPTIONS, codec)
            == Ok(NO_OPTIONS.(maxVersions := maxVersions, retention := retention, json := schema))
  {
    hide KeywordText, ReadOptions, Effect, Tokens;
    var a, b, c := Opt(KwMaxVersions, Printed(maxVersions)), Opt(KwRetention, Printed(retention)),
        Opt(KwSchema, Rendered(schema, codec));
    ClausesAreRead(g, [name], a + b + c, NO_OPTIONS, codec);
    EffectConcat(g, a + b, c, NO_OPTIONS, codec);
    EffectConcat(g, a, b, NO_OPTIONS, codec);
    NumberOption(g, KwMaxVersions, maxVersions, NO_OPTIONS, codec);
    var o := NO_OPTIONS.(maxVersions := maxVersions);
    NumberOption(g, KwRetention, retention, o, codec);
    JsonOption(g, KwSchema, schema, o.(retention := retention), codec);
  }

  lemma NamespacesIsParsed(cursor: Option<Bytes>, limit: Option<U64>, codec: JsonCodec)
    ensures ReadOptions(NamespaceListOptions, Tokens(Opt(KwCursor, cursor) + Opt(KwLimit, Printed(limit))), 0,
            NO_OPTIONS, codec)
            == Ok(NO_OPTIONS.(cursor := cursor, limit := limit))
  {
    hide KeywordText, ReadOptions, Effect, Tokens;
    var a, b := Opt(KwCursor, cursor), Opt(KwLimit, Printed(limit));
    ClausesAreRead(NamespaceListOptions, [], a + b, NO_OPTIONS, codec);
    assert [] + Tokens(a + b) == Tokens(a + b);
    EffectConcat(NamespaceListOptions, a, b, NO_OPTIONS, codec);
    EffectOpt(NamespaceListOptions, KwCursor, cursor, NO_OPTIONS, codec);
    NumberOption(NamespaceListOptions, KwLimit, limit, NO_OPTIONS.(cursor := cursor), codec);
  }

  lemma JoinedIsNotKey(events: seq<EventType>)
    requires events != []
    ensures KeywordOf(JoinEvents(events)) != KwKey
  {
    var s := JoinEvents(events);
    assert s[0] == 'p' || s[0] == 'd';
    assert Upper(s)[0] == 'P' || Upper(s)[0] == 'D';
  }

  lemma SubscribeIsParsed(ns: Bytes, key: Option<Bytes>, events: seq<EventType>, codec: JsonCodec)
    ensures ParseSubscribe([ns] + Tokens(Opt(KwKey, key))
            + (if events == [] then [] else ["EVENTS", JoinEvents(events)]), codec)
            == Ok(Subscribe(ns, key, if events == [] then [] else [Upper(JoinEvents(events))]))
  {
    hide KeywordOf, Upper, JoinEvents;
    var head := [ns] + Tokens(Opt(KwKey, key));
    var o := NO_OPTIONS.(key := key);
    if events == [] {
      assert head + [] == head;
      ClausesAreRead(SubscribeOptions, [ns], Opt(KwKey, key), NO_OPTIONS, codec);
      EffectOpt(SubscribeOptions, KwKey, key, NO_OPTIONS, codec);
    } else {
      var joined := JoinEvents(events);
      var args := head + ["EVENTS", joined];
      JoinedIsNotKey(events);
      KeywordIsKnown(KwEvents);
      assert args[|head|] == "EVENTS" && args[|head| + 1] == joined;
      assert EventsEnd(args, |head| + 1) == |args|;
      assert args[|head| + 1..|args|] == [joined];
      assert Uppers([joined]) == [Upper(joined)];
      assert o.events + [Upper(joined)] == [Upper(joined)];
      var o' := o.(events := [Upper(joined)]);
      assert ReadOptions(SubscribeOptions, args, |args|, o', codec) == Ok(o');
      assert ReadOptions(SubscribeOptions, args, |head|, o, codec) == Ok(o');
      if key.Some? {
        KeywordIsKnown(KwKey);
        assert Opt(KwKey, key)[1..] == [];
        assert Tokens(Opt(KwKey, key)) == ["KEY", key.value];
        assert args[1] == "KEY" && args[2] == key.value;
        assert ReadOptions(SubscribeOptions, args, 1, NO_OPTIONS, codec)
               == ReadOptions(SubscribeOptions, args, 3, o, codec);
      } else {
        assert Tokens(Opt(KwKey, key)) == [];
      }
    }
  }

  // ---- Every request ----

  lemma LossyNonEmpty(s: Bytes)
    requires s != []
    ensures Utf8.Lossy(s) != []
  {
  }

  lemma KeyRequestIsParsed(q: Request, codec: JsonCodec)
    requires Sendable(q, codec)
    requires q.AskPut? || q.AskPutMeta? || q.AskGet? || q.AskDelete? || q.AskPutIf? || q.AskDelIf? || q.AskDelPrefix?
    ensures ParseArgs(Arguments(q, codec), codec) == Ok(Meaning(q))
  {
    hide VerbOf, ReadOptions, KeywordOf, Tokens, Utf8.Lossy, Utf8.Valid, Print, ParseU64, SubOf, ParseNamespace;
    hide ParseRekey, ParseConfig, ParseSubscribe, ParseList, ParseVersions;
    DataVerbs();
    var args := Arguments(q, codec)[1..];
    match q
    case AskPutMeta(ns, key, value, meta) =>
      PutMetaIsParsed(ns, Utf8.Lossy(key), Utf8.Lossy(value), meta, codec);
      assert args == [ns, Utf8.Lossy(key)]
             + Tokens([Clause(KwValue, Utf8.Lossy(value)), Clause(KwMeta, codec.render(meta))]);
    case AskGet(ns, key, version) =>
      GetIsParsed(ns, Utf8.Lossy(key), version, codec);
      assert args == [ns, Utf8.Lossy(key)] + Tokens(Opt(KwVersion, Printed(version)));
    case AskPutIf(ns, key, value, metadata, expected) =>
      PutIfIsParsed(ns, Utf8.Lossy(key), Utf8.Lossy(value), metadata, expected, codec);
      assert args == [ns, Utf8.Lossy(key), Utf8.Lossy(value)]
                     + Tokens([Clause(KwExpect, Print(expected))] + Opt(KwMeta, Rendered(metadata, codec)));
    case AskDelIf(ns, key, expected) =>
      KeywordIsKnown(KwExpect);
      ParsePrintU64(expected);
      assert args == [ns, Utf8.Lossy(key), "EXPECT", Print(expected)];
    case AskDelPrefix(ns, prefix) =>
      LossyNonEmpty(prefix);
    case _ =>
  }

  lemma ScanRequestIsParsed(q: Request, codec: JsonCodec)
    requires Sendable(q, codec)
    requires q.AskList? || q.AskVersions? || q.AskSubscribe?
    ensures ParseArgs(Arguments(q, codec), codec) == Ok(Meaning(q))
  {
    hide VerbOf, ReadOptions, KeywordOf, Tokens, Utf8.Lossy, Utf8.Valid, Print, JoinEvents, Upper;
    OtherVerbs();
    OperationalVerbs();
    var args := Arguments(q, codec)[1..];
    match q
    case AskList(ns, prefix, cursor, limit) =>
      ListIsParsed(ns, LossyOption(prefix), cursor, limit, codec);
      assert args == [ns] + Tokens(Opt(KwPrefix, LossyOption(prefix)) + Opt(KwCursor, cursor)
             + Opt(KwLimit, Printed(limit)));
    case AskVersions(ns, key, limit, from) =>
      VersionsIsParsed(ns, Utf8.Lossy(key), limit, from, codec);
      assert args == [ns, Utf8.Lossy(key)] + Tokens(Opt(KwLimit, Printed(limit)) + Opt(KwFrom, Printed(from)));
    case AskSubscribe(ns, key, events) =>
      SubscribeIsParsed(ns, LossyOption(key), events, codec);
      assert args == [ns] + Tokens(Opt(KwKey, LossyOption(key))) + if events == [] then []
             else ["EVENTS", JoinEvents(events)];
  }

  lemma SettingsRequestIsParsed(q: Request, codec: JsonCodec)
    requires Sendable(q, codec)
    requires q.AskCreate? || q.AskAlter?
    ensures ParseArgs(Arguments(q, codec), codec) == Ok(Meaning(q))
  {
    hide VerbOf, SubOf, ReadOptions, Tokens, Utf8.Valid, Print, Settings, Upper;
    OtherVerbs();
    Subcommands();
    var args := Arguments(q, codec)[1..];
    var tokens := Tokens(Settings(q.maxVersions, q.retention, q.schema, codec));
    if q.AskCreate? {
      SettingsAreRead(CreateOptions, q.name, q.maxVersions, q.retention, q.schema, codec);
      assert args == ["CREATE", q.name] + tokens;
    } else {
      SettingsAreRead(AlterOptions, q.name, q.maxVersions, q.retention, q.schema, codec);
      assert args == ["ALTER", q.name] + tokens;
    }
    assert args[1..] == [q.name] + tokens;
  }

  lemma NamespaceRequestIsParsed(q: Request, codec: JsonCodec)
    requires q.AskDrop? || q.AskNamespaces? || q.AskInfo? || q.AskValidate?
    ensures ParseArgs(Arguments(q, codec), codec) == Ok(Meaning(q))
  {
    hide VerbOf, SubOf, ReadOptions, Tokens, Utf8.Valid, Print, Settings, Upper;
    OtherVerbs();
    Subcommands();
    var args := Arguments(q, codec)[1..];
    match q
    case AskDrop(name, force) =>
      UpperFixed("FORCE");
      assert args == ["DROP", name] + if force then ["FORCE"] else [];
    case AskNamespaces(cursor, limit) =>
      NamespacesIsParsed(cursor, limit, codec);
      assert args == ["LIST"] + Tokens(Opt(KwCursor, cursor) + Opt(KwLimit, Printed(limit)));
      assert args[1..] == Tokens(Opt(KwCursor, cursor) + Opt(KwLimit, Printed(limit)));
    case _ =>
  }

  lemma OperationalRequestIsParsed(q: Request, codec: JsonCodec)
    requires q.AskAuth? || q.AskPing? || q.AskHealth? || q.AskConfigGet? || q.AskConfigSet? || q.AskCommands?
    ensures ParseArgs(Arguments(q, codec), codec) == Ok(Meaning(q))
  {
    hide VerbOf, Upper;
    DataVerbs();
    OperationalVerbs();
    UpperFixed("GET");
    UpperFixed("SET");
    UpperFixed("LIST");
  }

  lemma RequestIsParsed(q: Request, codec: JsonCodec)
    requires Sendable(q, codec)
    ensures ParseArgs(Arguments(q, codec), codec) == Ok(Meaning(q))
  {
    hide ParseArgs, Arguments, Meaning, Sendable;
    match q
    case AskPut(_, _, _) => KeyRequestIsParsed(q, codec);
    case AskPutMeta(_, _, _, _) => KeyRequestIsParsed(q, codec);
    case AskGet(_, _, _) => KeyRequestIsParsed(q, codec);
    case AskDelete(_, _) => KeyRequestIsParsed(q, codec);
    case AskPutIf(_, _, _, _, _) => KeyRequestIsParsed(q, codec);
    case AskDelIf(_, _, _) => KeyRequestIsParsed(q, codec);
    case AskDelPrefix(_, _) => KeyRequestIsParsed(q, codec);
    case AskList(_, _, _, _) => ScanRequestIsParsed(q, codec);
    case AskVersions(_, _, _, _) => ScanRequestIsParsed(q, codec);
    case AskSubscribe(_, _, _) => ScanRequestIsParsed(q, codec);
    case AskCreate(_, _, _, _) => SettingsRequestIsParsed(q, codec);
    case AskAlter(_, _, _, _) => SettingsRequestIsParsed(q, codec);
    case AskDrop(_, _) => NamespaceRequestIsParsed(q, codec);
    case AskNamespaces(_, _) => NamespaceRequestIsParsed(q, codec);
    case AskInfo(_) => NamespaceRequestIsParsed(q, codec);
    case AskValidate(_) => NamespaceRequestIsParsed(q, codec);
    case _ => OperationalRequestIsParsed(q, codec);
  }

  // ---- Frames ----

  lemma {:induction false} BulkTexts(args: seq<Bytes>)
    requires forall i :: 0 <= i < |args| ==> Utf8.Valid(args[i])
    ensures FrameTexts(Bulks(args)) == Ok(args)
    decreases |args|
  {
    hide Utf8.Valid;
    if args != [] {
      assert Bulks(args)[1..] == Bulks(args[1..]);
      BulkTexts(args[1..]);
      assert args == [args[0]] + args[1..];
    }
  }

  /** A flat command frame parses as its argument list. */
  lemma FlatFrameIsParsed(args: seq<Bytes>, codec: JsonCodec)
    requires args != [] && VerbOf(args[0]) != VPipeline
    requires forall i :: 0 <= i < |args| ==> Utf8.Valid(args[i])
    ensures ParseCommand(CommandFrame(args), codec) == Refused(ParseArgs(args, codec))
  {
    hide VerbOf, ParseArgs, FrameTexts, Utf8.Valid;
    BulkTexts(args);
  }

  lemma VerbIsNotPipeline(q: Request, codec: JsonCodec)
    ensures VerbOf(Arguments(q, codec)[0]) != VPipeline
  {
    hide VerbOf;
    DataVerbs();
    OtherVerbs();
    OperationalVerbs();
  }

  lemma RequestFrameIsParsed(q: Request, codec: JsonCodec)
    requires Sendable(q, codec)
    ensures ParseCommand(CommandFrame(Arguments(q, codec)), codec) == Ok(Meaning(q))
  {
    hide VerbOf, ParseArgs, ParseCommand, Arguments, Meaning, Utf8.Valid;
    VerbIsNotPipeline(q, codec);
    FlatFrameIsParsed(Arguments(q, codec), codec);
    RequestIsParsed(q, codec);
  }

  lemma ArgumentsAreFew(q: Request, codec: JsonCodec)
    ensures |Arguments(q, codec)| <= 10
  {
    hide KeywordText, Tokens, Utf8.Lossy, Print, JoinEvents;
  }

  lemma RequestFrameIsReadable(q: Request, codec: JsonCodec, depth: nat)
    requires Sendable(q, codec) && depth < ServerReader.MAX_DEPTH
    ensures ServerReader.Readable(CommandFrame(Arguments(q, codec)), depth)
  {
    hide Arguments, Utf8.Valid;
    ArgumentsAreFew(q, codec);
    var args := Arguments(q, codec);
    forall i | 0 <= i < |Bulks(args)|
      ensures ServerReader.Readable(Bulks(args)[i], depth + 1)
    {
      assert FitsArgument(args[i]);
    }
  }

  // ---- Pipelines ----

  function AllArguments(qs: seq<Request>, codec: JsonCodec): (r: seq<seq<Bytes>>)
    ensures |r| == |qs|
    ensures forall i :: 0 <= i < |qs| ==> r[i] == Arguments(qs[i], codec)
  {
    seq(|qs|, i requires 0 <= i < |qs| => Arguments(qs[i], codec))
  }

  function Meanings(qs: seq<Request>): (r: seq<Command>)
    ensures |r| == |qs|
    ensures forall i :: 0 <= i < |qs| ==> r[i] == Meaning(qs[i])
  {
    seq(|qs|, i requires 0 <= i < |qs| => Meaning(qs[i]))
  }

  predicate SendableAll(qs: seq<Request>, codec: JsonCodec) {
    forall i :: 0 <= i < |qs| ==> Sendable(qs[i], codec)
  }

  /** The frame the client writes for a pipeline of requests. */
  function PipelineOf(qs: seq<Request>, id: Option<Bytes>, codec: JsonCodec): Frame {
    PipelineFrame(AllArguments(qs, codec), id)
  }

  lemma {:induction false} SubCommandsAreParsed(items: seq<Frame>, start: nat, i: nat, qs: seq<Request>,
                                                codec: JsonCodec)
    requires SendableAll(qs, codec)
    requires start <= i <= |items| && |items| == start + |qs|
    requires forall k :: 0 <= k < |qs| ==> items[start + k] == CommandFrame(Arguments(qs[k], codec))
    ensures ParseAll(items, start, i, codec) == Ok(Meanings(qs)[i - start..])
    decreases |items| - i
  {
    hide ParseCommand, Arguments, Meaning, Sendable, ErrorText, CommandFrame;
    if i < |items| {
      var q := qs[i - start];
      RequestFrameIsParsed(q, codec);
      assert items[start + (i - start)] == CommandFrame(Arguments(q, codec));
      SubCommandsAreParsed(items, start, i + 1, qs, codec);
      assert Meanings(qs)[i - start..] == [Meaning(q)] + Meanings(qs)[i + 1 - start..];
    }
  }

  lemma PipelineHeadIsRead(items: seq<Frame>, id: Option<Bytes>, commands: seq<Frame>)
    requires items == PipelineHead(id) + commands
    requires commands == [] || commands[0].Array?
    requires id.Some? ==> Utf8.Valid(id.value)
    ensures PipelineOptions(items, 1, None) == Ok((|PipelineHead(id)|, id))
  {
    hide Utf8.Valid;
    UpperFixed("REQUEST_ID");
    Utf8.AsciiValid("REQUEST_ID");
    var start := |PipelineHead(id)|;
    if commands != [] {
      assert items[start] == commands[0];
    }
    assert PipelineOptions(items, start, id) == Ok((start, id));
    if id.Some? {
      assert items[1] == BulkString("REQUEST_ID") && items[2] == BulkString(id.value);
    }
  }

  lemma PipelineIsParsed(qs: seq<Request>, id: Option<Bytes>, codec: JsonCodec)
    requires qs != [] && SendableAll(qs, codec)
    requires id.Some? ==> Utf8.Valid(id.value)
    ensures ParseCommand(PipelineOf(qs, id, codec), codec) == Ok(Pipeline(Meanings(qs), id))
  {
    hide VerbOf, Utf8.Valid, PipelineOptions, ParseAll, Arguments, Meaning, Sendable, PipelineHead;
    var head, commands := PipelineHead(id), CommandFrames(AllArguments(qs, codec));
    var items := head + commands;
    PipelineHeadIsRead(items, id, commands);
    assert |head| >= 1 && head[0] == BulkString("PIPELINE") by {
      HeadStartsWithVerb(id);
    }
    OtherVerbs();
    Utf8.AsciiValid("PIPELINE");
    SubCommandsAreParsed(items, |head|, |head|, qs, codec);
    assert Meanings(qs)[0..] == Meanings(qs);
    assert items[0] == BulkString("PIPELINE");
  }

  lemma HeadStartsWithVerb(id: Option<Bytes>)
    ensures |PipelineHead(id)| == (if id.Some? then 3 else 1)
    ensures PipelineHead(id)[0] == BulkString("PIPELINE")
    ensures id.Some? ==> PipelineHead(id)[1] == BulkString("REQUEST_ID") && PipelineHead(id)[2] == BulkString(id.value)
  {
  }

  lemma PipelineIsReadable(qs: seq<Request>, id: Option<Bytes>, codec: JsonCodec)
    requires SendableAll(qs, codec)
    requires |PipelineHead(id)| + |qs| <= ServerReader.MAX_COLLECTION_SIZE
    requires id.Some? ==> FitsArgument(id.value)
    ensures ServerReader.Readable(PipelineOf(qs, id, codec), 0)
  {
    hide Arguments, Sendable, Utf8.Valid, CommandFrame, PipelineHead;
    var head, commands := PipelineHead(id), CommandFrames(AllArguments(qs, codec));
    HeadStartsWithVerb(id);
    forall i | 0 <= i < |head + commands|
      ensures ServerReader.Readable((head + commands)[i], 1)
    {
      if i >= |head| {
        RequestFrameIsReadable(qs[i - |head|], codec, 1);
      }
    }
  }

  // ---- Main results ----

  /**
    The whole request path: the bytes the client writes for a request, followed by anything, are read
    as one frame that parses to exactly the intended command, and what followed is left unread.
   */
  lemma RequestArrives(q: Request, codec: JsonCodec, rest: Bytes)
    requires Sendable(q, codec)
    ensures var r := ServerReader.ReadFrame(Encode(CommandFrame(Arguments(q, codec))) + rest);
            r.Got? && r.rest == rest && ParseCommand(r.value, codec) == Ok(Meaning(q))
  {
    hide ParseCommand, Encode, ServerReader.ReadFrame, Arguments, Meaning, Sendable;
    RequestFrameIsReadable(q, codec, 0);
    ServerCodec.RoundTripExactly(CommandFrame(Arguments(q, codec)), rest);
    RequestFrameIsParsed(q, codec);
  }

  /** The same for a non-empty pipeline with an optional request id. */
  lemma PipelineArrives(qs: seq<Request>, id: Option<Bytes>, codec: JsonCodec, rest: Bytes)
    requires qs != [] && SendableAll(qs, codec)
    requires |PipelineHead(id)| + |qs| <= ServerReader.MAX_COLLECTION_SIZE
    requires id.Some? ==> FitsArgument(id.value)
    ensures var r := ServerReader.ReadFrame(Encode(PipelineOf(qs, id, codec)) + rest);
            r.Got? && r.rest == rest && ParseCommand(r.value, codec) == Ok(Pipeline(Meanings(qs), id))
  {
    hide ParseCommand, Encode, ServerReader.ReadFrame, PipelineOf, Sendable;
    PipelineIsReadable(qs, id, codec);
    ServerCodec.RoundTripExactly(PipelineOf(qs, id, codec), rest);
    PipelineIsParsed(qs, id, codec);
  }
}
