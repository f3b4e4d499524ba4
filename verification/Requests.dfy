/** The requests the client builds, and the commands the server makes of them. */
module Requests {
  import opened Text
  import opened Decimal
  import opened Commands
  import opened CommandParser
  import ServerReader
  import Utf8

  datatype EventType = PutEvent | DeleteEvent

  datatype Request =
    | AskAuth(token: Bytes)
    | AskPing
    | AskHealth
    | AskPut(ns: Bytes, key: Bytes, value: Bytes)
    | AskPutMeta(ns: Bytes, key: Bytes, value: Bytes, meta: Json)
    | AskGet(ns: Bytes, key: Bytes, version: Option<U64>)
    | AskDelete(ns: Bytes, key: Bytes)
    | AskPutIf(ns: Bytes, key: Bytes, value: Bytes, metadata: Option<Json>, expected: U64)
    | AskDelIf(ns: Bytes, key: Bytes, expected: U64)
    | AskDelPrefix(ns: Bytes, prefix: Bytes)
    | AskList(ns: Bytes, prefixFilter: Option<Bytes>, cursor: Option<Bytes>, limit: Option<U64>)
    | AskVersions(ns: Bytes, key: Bytes, limit: Option<U64>, from: Option<U64>)
    | AskCreate(name: Bytes, maxVersions: Option<U64>, retention: Option<U64>, schema: Option<Json>)
    | AskAlter(name: Bytes, maxVersions: Option<U64>, retention: Option<U64>, schema: Option<Json>)
    | AskDrop(name: Bytes, force: bool)
    | AskNamespaces(cursor: Option<Bytes>, limit: Option<U64>)
    | AskInfo(name: Bytes)
    | AskValidate(name: Bytes)
    | AskConfigGet(name: Bytes)
    | AskConfigSet(name: Bytes, setting: Bytes)
    | AskCommands
    | AskSubscribe(ns: Bytes, keyFilter: Option<Bytes>, events: seq<EventType>)

  /** One keyword option with its operand. */
  datatype Clause = Clause(k: Keyword, operand: Bytes)

  function Tokens(cs: seq<Clause>): (args: seq<Bytes>)
    ensures |args| == 2 * |cs|
  {
    if cs == [] then [] else [KeywordText(cs[0].k), cs[0].operand] + Tokens(cs[1..])
  }

  function Opt(k: Keyword, operand: Option<Bytes>): seq<Clause> {
    if operand.Some? then [Clause(k, operand.value)] else []
  }

  function Printed(n: Option<U64>): Option<Bytes> {
    if n.Some? then Some(Print(n.value)) else None
  }

  function Rendered(j: Option<Json>, codec: JsonCodec): Option<Bytes> {
    if j.Some? then Some(codec.render(j.value)) else None
  }

  function LossyOption(b: Option<Bytes>): Option<Bytes> {
    if b.Some? then Some(Utf8.Lossy(b.value)) else None
  }

  function EventText(e: EventType): Bytes {
    if e.PutEvent? then "put" else "delete"
  }

  /** Event names joined with a vertical bar. */
  function JoinEvents(events: seq<EventType>): Bytes
    requires events != []
  {
    if |events| == 1 then EventText(events[0])
    else EventText(events[0]) + "|" + JoinEvents(events[1..])
  }

  function Settings(maxVersions: Option<U64>, retention: Option<U64>, schema: Option<Json>, codec: JsonCodec)
      : seq<Clause>
  {
    Opt(KwMaxVersions, Printed(maxVersions)) + Opt(KwRetention, Printed(retention))
        + Opt(KwSchema, Rendered(schema, codec))
  }

  /** Requests for keys and values. */
  predicate IsDataRequest(q: Request) {
    || q.AskPut? || q.AskPutMeta? || q.AskGet? || q.AskDelete? || q.AskPutIf? || q.AskDelIf? || q.AskDelPrefix?
    || q.AskList? || q.AskVersions?
  }

  /** The argument list the client sends for a request. */
  function Arguments(q: Request, codec: JsonCodec): (args: seq<Bytes>)
    ensures args != []
  {
    if IsDataRequest(q) then DataArguments(q, codec) else OtherArguments(q, codec)
  }

  function DataArguments(q: Request, codec: JsonCodec): (args: seq<Bytes>)
    requires IsDataRequest(q)
    ensures args != []
  {
    match q
    case AskPut(ns, key, value) => ["PUT", ns, Utf8.Lossy(key), Utf8.Lossy(value)]
    case AskPutMeta(ns, key, value, meta) =>
      ["PUT", ns, Utf8.Lossy(key)] + Tokens([Clause(KwValue, Utf8.Lossy(value)), Clause(KwMeta, codec.render(meta))])
    case AskGet(ns, key, version) => ["GET", ns, Utf8.Lossy(key)] + Tokens(Opt(KwVersion, Printed(version)))
    case AskDelete(ns, key) => ["DELETE", ns, Utf8.Lossy(key)]
    case AskPutIf(ns, key, value, metadata, expected) =>
      ["PUTIF", ns, Utf8.Lossy(key), Utf8.Lossy(value)]
      + Tokens([Clause(KwExpect, Print(expected))] + Opt(KwMeta, Rendered(metadata, codec)))
    case AskDelIf(ns, key, expected) => ["DELIF", ns, Utf8.Lossy(key), "EXPECT", Print(expected)]
    case AskDelPrefix(ns, prefix) => ["DELPREFIX", ns, Utf8.Lossy(prefix)]
    case AskList(ns, prefix, cursor, limit) =>
      ["LIST", ns] + Tokens(Opt(KwPrefix, LossyOption(prefix)) + Opt(KwCursor, cursor) + Opt(KwLimit, Printed(limit)))
    case AskVersions(ns, key, limit, from) =>
      ["VERSIONS", ns, Utf8.Lossy(key)] + Tokens(Opt(KwLimit, Printed(limit)) + Opt(KwFrom, Printed(from)))
  }

  function OtherArguments(q: Request, codec: JsonCodec): (args: seq<Bytes>)
    requires !IsDataRequest(q)
    ensures args != []
  {
    match q
    case AskAuth(token) => ["AUTH", token]
    case AskPing => ["PING"]
    case AskHealth => ["HEALTH"]
    case AskCreate(name, maxVersions, retention, schema) =>
      ["NAMESPACE", "CREATE", name] + Tokens(Settings(maxVersions, retention, schema, codec))
    case AskAlter(name, maxVersions, retention, schema) =>
      ["NAMESPACE", "ALTER", name] + Tokens(Settings(maxVersions, retention, schema, codec))
    case AskDrop(name, force) => ["NAMESPACE", "DROP", name] + if force then ["FORCE"] else []
    case AskNamespaces(cursor, limit) =>
      ["NAMESPACE", "LIST"] + Tokens(Opt(KwCursor, cursor) + Opt(KwLimit, Printed(limit)))
    case AskInfo(name) => ["NAMESPACE", "INFO", name]
    case AskValidate(name) => ["NAMESPACE", "VALIDATE", name]
    case AskConfigGet(name) => ["CONFIG", "GET", name]
    case AskConfigSet(name, setting) => ["CONFIG", "SET", name, setting]
    case AskCommands => ["COMMAND", "LIST"]
    case AskSubscribe(ns, key, events) =>
      ["SUBSCRIBE", ns] + Tokens(Opt(KwKey, LossyOption(key)))
      + if events == [] then [] else ["EVENTS", JoinEvents(events)]
  }

  /** The command each request means. */
  function Meaning(q: Request): Command {
    match q
    case AskAuth(token) => Auth(token)
    case AskPing => Ping
    case AskHealth => Health
    case AskPut(ns, key, value) => Put(ns, Utf8.Lossy(key), Utf8.Lossy(value), None, None)
    case AskPutMeta(ns, key, value, meta) => Put(ns, Utf8.Lossy(key), Utf8.Lossy(value), Some(meta), None)
    case AskGet(ns, key, version) => Get(ns, Utf8.Lossy(key), version, false)
    case AskDelete(ns, key) => Delete(ns, Utf8.Lossy(key))
    case AskPutIf(ns, key, value, metadata, expected) =>
      PutIf(ns, Utf8.Lossy(key), Utf8.Lossy(value), metadata, expected)
    case AskDelIf(ns, key, expected) => DelIf(ns, Utf8.Lossy(key), expected)
    case AskDelPrefix(ns, prefix) => DelPrefix(ns, Utf8.Lossy(prefix))
    case AskList(ns, prefix, cursor, limit) => List(ns, LossyOption(prefix), cursor, limit)
    case AskVersions(ns, key, limit, from) => Versions(ns, Utf8.Lossy(key), limit, from)
    case AskCreate(name, maxVersions, retention, schema) => NamespaceCreate(name, schema, maxVersions, retention)
    case AskAlter(name, maxVersions, retention, schema) => NamespaceAlter(name, schema, maxVersions, retention)
    case AskDrop(name, force) => NamespaceDrop(name, force)
    case AskNamespaces(cursor, limit) => NamespaceList(cursor, limit)
    case AskInfo(name) => NamespaceInfo(name)
    case AskValidate(name) => NamespaceValidate(name)
    case AskConfigGet(name) => ConfigGet(name)
    case AskConfigSet(name, setting) => ConfigSet(name, setting)
    case AskCommands => CommandList
    case AskSubscribe(ns, key, events) =>
      Subscribe(ns, LossyOption(key), if events == [] then [] else [Upper(JoinEvents(events))])
  }

  /** Printed JSON is read back as the same value. */
  predicate Faithful(j: Option<Json>, codec: JsonCodec) {
    j.Some? ==> codec.parse(codec.render(j.value)) == Ok(j.value)
  }

  predicate FitsArgument(a: Bytes) {
    Utf8.Valid(a) && |a| <= ServerReader.MAX_BULK_SIZE
  }

  /** UTF-8 arguments within the size limit, faithful JSON, and no empty prefix to delete. */
  predicate Sendable(q: Request, codec: JsonCodec) {
    && (forall i :: 0 <= i < |Arguments(q, codec)| ==> FitsArgument(Arguments(q, codec)[i]))
    && (q.AskDelPrefix? ==> q.prefix != [])
    && (q.AskPutMeta? ==> Faithful(Some(q.meta), codec))
    && (q.AskPutIf? ==> Faithful(q.metadata, codec))
    && (q.AskCreate? || q.AskAlter? ==> Faithful(q.schema, codec))
  }

  // ---- Keywords ----

  lemma UpperFixed(s: Bytes)
    requires forall i :: 0 <= i < |s| ==> !('a' <= s[i] <= 'z')
    ensures Upper(s) == s
  {
  }

  lemma KeywordIsKnown(k: Keyword)
    requires k != KwNone
    ensures KeywordOf(KeywordText(k)) == k
  {
    UpperFixed(KeywordText(k));
  }

  // ---- Option lists ----

  /** What a list of clauses does to the options, one after the other. */
  function Effect(g: Grammar, cs: seq<Clause>, o: Options, codec: JsonCodec): Result<Options, Complaint> {
    if cs == [] then Ok(o)
    else
      var o' :- Apply(g, cs[0].k, cs[0].operand, o, codec);
      Effect(g, cs[1..], o', codec)
  }

  predicate Understood(g: Grammar, cs: seq<Clause>) {
    forall i :: 0 <= i < |cs| ==> cs[i].k != KwNone && RoleOf(g, cs[i].k) == TakesOperand
  }

  /**
    Any list of understood clauses is read with exactly its effect, whatever the operands spell: an
    operand that looks like a keyword is never taken for one.
   */
  lemma {:induction false} ClausesAreRead(g: Grammar, head: seq<Bytes>, cs: seq<Clause>, o: Options, codec: JsonCodec)
    requires Understood(g, cs)
    ensures ReadOptions(g, head + Tokens(cs), |head|, o, codec) == Effect(g, cs, o, codec)
    decreases |cs|
  {
    hide KeywordOf, KeywordText, RoleOf, Apply;
    if cs == [] {
      assert head + Tokens(cs) == head;
    } else {
      var args := head + Tokens(cs);
      assert args[|head|] == KeywordText(cs[0].k) && args[|head| + 1] == cs[0].operand;
      KeywordIsKnown(cs[0].k);
      var step := Apply(g, cs[0].k, cs[0].operand, o, codec);
      if step.Ok? {
        var head' := head + [KeywordText(cs[0].k), cs[0].operand];
        assert head' + Tokens(cs[1..]) == args;
        ClausesAreRead(g, head', cs[1..], step.value, codec);
      }
    }
  }

  lemma {:induction false} EffectConcat(g: Grammar, a: seq<Clause>, b: seq<Clause>, o: Options, codec: JsonCodec)
    ensures Effect(g, a + b, o, codec) ==
            if Effect(g, a, o, codec).Ok? then Effect(g, b, Effect(g, a, o, codec).value, codec)
                else Effect(g, a, o, codec)
    decreases |a|
  {
    hide Apply;
    if a == [] {
      assert a + b == b;
    } else {
      assert (a + b)[0] == a[0] && (a + b)[1..] == a[1..] + b;
      var step := Apply(g, a[0].k, a[0].operand, o, codec);
      if step.Ok? {
        EffectConcat(g, a[1..], b, step.value, codec);
      }
    }
  }

  lemma EffectOpt(g: Grammar, k: Keyword, operand: Option<Bytes>, o: Options, codec: JsonCodec)
    ensures Effect(g, Opt(k, operand), o, codec) == if operand.Some? then Apply(g, k, operand.value, o, codec)
            else Ok(o)
  {
    hide Apply;
    if operand.Some? {
      assert Opt(k, operand)[1..] == [];
    }
  }

  lemma NumberOption(g: Grammar, k: Keyword, n: Option<U64>, o: Options, codec: JsonCodec)
    requires k.KwVersion? || k.KwExpect? || k.KwLimit? || k.KwFrom? || k.KwMaxVersions? || k.KwRetention?
    ensures Effect(g, Opt(k, Printed(n)), o, codec) ==
            Ok(if n.None? then o
               else match k
                    case KwLimit => o.(limit := n)
                    case KwFrom => o.(from := n)
                    case KwMaxVersions => o.(maxVersions := n)
                    case KwRetention => o.(retention := n)
                    case _ => o.(version := n))
  {
    hide ParseU64, Print;
    EffectOpt(g, k, Printed(n), o, codec);
    if n.Some? {
      ParsePrintU64(n.value);
    }
  }

  lemma JsonOption(g: Grammar, k: Keyword, j: Option<Json>, o: Options, codec: JsonCodec)
    requires k.KwMeta? || k.KwSchema?
    requires Faithful(j, codec)
    ensures Effect(g, Opt(k, Rendered(j, codec)), o, codec) == Ok(if j.None? then o else o.(json := j))
  {
    EffectOpt(g, k, Rendered(j, codec), o, codec);
  }
}
