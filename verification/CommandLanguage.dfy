/**
  The language of flat commands: which lists of strings denote which command, told by the words of the
  protocol. The parser accepts exactly this language and gives every list its meaning.
 */
module CommandLanguage {
  import opened Text
  import opened Decimal
  import opened Commands
  import opened OptionLists

  // ---- Options of the strict commands ----

  predicate Among(s: Bytes, a: Bytes, b: Bytes, c: Bytes) {
    IsWord(s, a) || IsWord(s, b) || IsWord(s, c)
  }

  /** Every item is one of these keywords with its operand. */
  predicate OnlyPairs(items: seq<Item>, a: Bytes, b: Bytes, c: Bytes) {
    forall i :: 0 <= i < |items| ==> items[i].Pair? && Among(items[i].word, a, b, c)
  }

  /** Every operand of the keyword is a number. */
  predicate Numbers(items: seq<Item>, word: Bytes) {
    forall i :: 0 <= i < |items| && items[i].Pair? && IsWord(items[i].word, word) ==> ParseU64(items[i].operand).Some?
  }

  /** Every operand of the keyword is JSON. */
  predicate Jsons(items: seq<Item>, word: Bytes, codec: JsonCodec) {
    forall i :: 0 <= i < |items| && items[i].Pair? && IsWord(items[i].word, word) ==>
      codec.parse(items[i].operand).Ok?
  }

  predicate PutItems(items: seq<Item>, value: Bytes, metadata: Option<Json>, ttl: Option<U64>, codec: JsonCodec) {
    && OnlyPairs(items, "VALUE", "META", "TTL") && Numbers(items, "TTL") && Jsons(items, "META", codec)
    && value == TextOf(items, "VALUE") && metadata == JsonOf(items, "META", codec) && ttl == NumberOf(items, "TTL")
  }

  predicate GetItems(items: seq<Item>, version: Option<U64>, meta: bool) {
    && (forall i :: 0 <= i < |items| ==>
          || (items[i].Pair? && IsWord(items[i].word, "VERSION"))
          || (items[i].Lone? && IsWord(items[i].word, "META")))
    && Numbers(items, "VERSION") && version == NumberOf(items, "VERSION") && (meta <==> HasLone(items, "META"))
  }

  predicate PutIfItems(items: seq<Item>, metadata: Option<Json>, expected: U64, codec: JsonCodec) {
    && OnlyPairs(items, "EXPECT", "META", "META") && Numbers(items, "EXPECT") && Jsons(items, "META", codec)
    && metadata == JsonOf(items, "META", codec) && NumberOf(items, "EXPECT") == Some(expected)
  }

  predicate ListItems(items: seq<Item>, prefix: Option<Bytes>, cursor: Option<Bytes>, limit: Option<U64>) {
    && OnlyPairs(items, "PREFIX", "CURSOR", "LIMIT") && Numbers(items, "LIMIT")
    && prefix == LastOperand(items, "PREFIX") && cursor == LastOperand(items, "CURSOR")
    && limit == NumberOf(items, "LIMIT")
  }

  predicate VersionsItems(items: seq<Item>, limit: Option<U64>, from: Option<U64>) {
    && OnlyPairs(items, "LIMIT", "FROM", "FROM") && Numbers(items, "LIMIT") && Numbers(items, "FROM")
    && limit == NumberOf(items, "LIMIT") && from == NumberOf(items, "FROM")
  }

  predicate CreateItems(items: seq<Item>, schema: Option<Json>, maxVersions: Option<U64>, retention: Option<U64>,
                        codec: JsonCodec) {
    && OnlyPairs(items, "SCHEMA", "MAX_VERSIONS", "TOMBSTONE_RETENTION")
    && Jsons(items, "SCHEMA", codec) && Numbers(items, "MAX_VERSIONS") && Numbers(items, "TOMBSTONE_RETENTION")
    && schema == JsonOf(items, "SCHEMA", codec) && maxVersions == NumberOf(items, "MAX_VERSIONS")
    && retention == NumberOf(items, "TOMBSTONE_RETENTION")
  }

  // ---- Options of the lenient commands ----

  /** Every item is one of these keywords with its operand, or another word, which is passed over. */
  predicate PairsAndOthers(items: seq<Item>, a: Bytes, b: Bytes, c: Bytes) {
    forall i :: 0 <= i < |items| ==>
      if Among(items[i].word, a, b, c) then items[i].Pair? else items[i].Lone?
  }

  /** Nothing, or one of these keywords without its operand. */
  predicate Unfinished(tail: seq<Bytes>, a: Bytes, b: Bytes, c: Bytes) {
    tail == [] || (|tail| == 1 && Among(tail[0], a, b, c))
  }

  predicate Cuts(tail: seq<Bytes>, word: Bytes) {
    tail != [] && IsWord(tail[0], word)
  }

  /** Operands that are no number or no JSON count for nothing, and so does everything if the operand is missing. */
  predicate AlterItems(items: seq<Item>, tail: seq<Bytes>, schema: Option<Json>, maxVersions: Option<U64>,
                       retention: Option<U64>, codec: JsonCodec) {
    && PairsAndOthers(items, "SCHEMA", "MAX_VERSIONS", "TOMBSTONE_RETENTION")
    && Unfinished(tail, "SCHEMA", "MAX_VERSIONS", "TOMBSTONE_RETENTION")
    && schema == (if Cuts(tail, "SCHEMA") then None else JsonOf(items, "SCHEMA", codec))
    && maxVersions == (if Cuts(tail, "MAX_VERSIONS") then None else NumberOf(items, "MAX_VERSIONS"))
    && retention == (if Cuts(tail, "TOMBSTONE_RETENTION") then None else NumberOf(items, "TOMBSTONE_RETENTION"))
  }

  predicate NamespaceListItems(items: seq<Item>, tail: seq<Bytes>, cursor: Option<Bytes>, limit: Option<U64>) {
    && PairsAndOthers(items, "CURSOR", "LIMIT", "LIMIT") && Unfinished(tail, "CURSOR", "LIMIT", "LIMIT")
    && cursor == (if Cuts(tail, "CURSOR") then None else LastOperand(items, "CURSOR"))
    && limit == (if Cuts(tail, "LIMIT") then None else NumberOf(items, "LIMIT"))
  }

  /** Names run on to the next KEY; a KEY at the very end changes nothing. */
  predicate SubscribeItems(items: seq<Item>, tail: seq<Bytes>, key: Option<Bytes>, events: seq<Bytes>) {
    && (forall i :: 0 <= i < |items| ==>
          match items[i]
          case Pair(word, _) => IsWord(word, "KEY")
          case Names(word, names) => IsWord(word, "EVENTS") && forall j :: 0 <= j < |names| ==> !IsWord(names[j], "KEY")
          case Lone(word) => !IsWord(word, "KEY") && !IsWord(word, "EVENTS"))
    && (forall i :: 0 <= i < |items| - 1 && items[i].Names? ==> items[i + 1].Pair?)
    && Unfinished(tail, "KEY", "KEY", "KEY")
    && key == LastOperand(items, "KEY") && events == NamesOf(items)
  }

  // ---- Commands ----

  /** The word a command starts with. */
  function FirstWord(c: Command): Bytes {
    match c
    case Auth(_) => "AUTH"
    case Ping => "PING"
    case Put(_, _, _, _, _) => "PUT"
    case Get(_, _, _, _) => "GET"
    case Delete(_, _) => "DELETE"
    case PutIf(_, _, _, _, _) => "PUTIF"
    case DelIf(_, _, _) => "DELIF"
    case DelPrefix(_, _) => "DELPREFIX"
    case List(_, _, _, _) => "LIST"
    case Versions(_, _, _, _) => "VERSIONS"
    case Subscribe(_, _, _) => "SUBSCRIBE"
    case Unsubscribe => "UNSUBSCRIBE"
    case Health => "HEALTH"
    case ConfigGet(_) => "CONFIG"
    case ConfigSet(_, _) => "CONFIG"
    case CommandList => "COMMAND"
    case Rekey(_) => "REKEY"
    case RekeyStatus => "REKEY"
    case Pipeline(_, _) => "PIPELINE"
    case _ => "NAMESPACE"
  }

  /** These arguments, after the verb, denote the command. */
  ghost predicate ArgumentsDenote(args: seq<Bytes>, c: Command, codec: JsonCodec) {
    match c
    case Auth(token) => |args| >= 1 && args[0] == token
    case Ping => true
    case Put(ns, key, value, metadata, ttl) =>
      && |args| >= 2 && args[0] == ns && args[1] == key
      && if |args| == 3 then value == args[2] && metadata.None? && ttl.None?
         else exists items :: args[2..] == SpelledAll(items) && PutItems(items, value, metadata, ttl, codec)
    case Get(ns, key, version, meta) =>
      && |args| >= 2 && args[0] == ns && args[1] == key
      && exists items :: args[2..] == SpelledAll(items) && GetItems(items, version, meta)
    case Delete(ns, key) => |args| >= 2 && args[0] == ns && args[1] == key
    case PutIf(ns, key, value, metadata, expected) =>
      && |args| >= 5 && args[0] == ns && args[1] == key && args[2] == value
      && exists items :: args[3..] == SpelledAll(items) && PutIfItems(items, metadata, expected, codec)
    case DelIf(ns, key, expected) =>
      && |args| == 4 && args[0] == ns && args[1] == key && IsWord(args[2], "EXPECT")
      && ParseU64(args[3]) == Some(expected)
    case DelPrefix(ns, prefix) => |args| == 2 && args[0] == ns && args[1] == prefix && prefix != []
    case List(ns, prefix, cursor, limit) =>
      && |args| >= 1 && args[0] == ns
      && exists items :: args[1..] == SpelledAll(items) && ListItems(items, prefix, cursor, limit)
    case Versions(ns, key, limit, from) =>
      && |args| >= 2 && args[0] == ns && args[1] == key
      && exists items :: args[2..] == SpelledAll(items) && VersionsItems(items, limit, from)
    case Subscribe(ns, key, events) =>
      && |args| >= 1 && args[0] == ns
      && exists items, tail :: args[1..] == SpelledAll(items) + tail && SubscribeItems(items, tail, key, events)
    case Unsubscribe => true
    case Health => true
    case ConfigGet(name) => |args| >= 2 && IsWord(args[0], "GET") && args[1] == name
    case ConfigSet(name, setting) => |args| >= 3 && IsWord(args[0], "SET") && args[1] == name && args[2] == setting
    case CommandList => args == [] || IsWord(args[0], "LIST")
    case Rekey(hex) =>
      && |args| >= 1 && args[0] == hex && |hex| == 64
      && forall i :: 0 <= i < |hex| ==> '0' <= hex[i] <= '9' || 'a' <= hex[i] <= 'f' || 'A' <= hex[i] <= 'F'
    case RekeyStatus => |args| >= 1 && IsWord(args[0], "STATUS")
    case Pipeline(_, _) => false
    case _ => NamespaceDenotes(args, c, codec)
  }

  ghost predicate NamespaceDenotes(args: seq<Bytes>, c: Command, codec: JsonCodec) {
    match c
    case NamespaceCreate(name, schema, maxVersions, retention) =>
      && |args| >= 2 && IsWord(args[0], "CREATE") && args[1] == name
      && exists items :: args[2..] == SpelledAll(items) && CreateItems(items, schema, maxVersions, retention, codec)
    case NamespaceDrop(name, force) =>
      && |args| >= 2 && IsWord(args[0], "DROP") && args[1] == name
      && (force <==> |args| >= 3 && IsWord(args[2], "FORCE"))
    case NamespaceList(cursor, limit) =>
      && |args| >= 1 && IsWord(args[0], "LIST")
      && exists items, tail :: args[1..] == SpelledAll(items) + tail && NamespaceListItems(items, tail, cursor, limit)
    case NamespaceInfo(name) => |args| >= 2 && IsWord(args[0], "INFO") && args[1] == name
    case NamespaceAlter(name, schema, maxVersions, retention) =>
      && |args| >= 2 && IsWord(args[0], "ALTER") && args[1] == name
      && exists items, tail :: args[2..] == SpelledAll(items) + tail
                               && AlterItems(items, tail, schema, maxVersions, retention, codec)
    case NamespaceValidate(name) => |args| >= 2 && IsWord(args[0], "VALIDATE") && args[1] == name
    case _ => false
  }

  /** The strings denote the command. */
  ghost predicate Denotes(strings: seq<Bytes>, c: Command, codec: JsonCodec) {
    strings != [] && IsWord(strings[0], FirstWord(c)) && ArgumentsDenote(strings[1..], c, codec)
  }
}
