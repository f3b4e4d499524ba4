/** The parser accepts exactly the language of commands and gives every list of strings its meaning. */
module LanguageFacts {
  import opened Text
  import opened Decimal
  import opened Commands
  import opened CommandParser
  import opened OptionLists
  import opened CommandLanguage

  // ---- Keywords with operands ----

  /** The command takes these keywords with operands, and nothing else. */
  ghost predicate Takes(g: Grammar, a: Keyword, b: Keyword, c: Keyword) {
    && a != KwNone && b != KwNone && c != KwNone
    && forall k :: RoleOf(g, k) == if k == a || k == b || k == c then TakesOperand else Unknown
  }

  /** Every operand of the keyword is what it has to be. */
  predicate Sane(items: seq<Item>, k: Keyword, codec: JsonCodec) {
    && (IsNumeric(k) ==> Numbers(items, KeywordText(k)))
    && (k.KwMeta? || k.KwSchema? ==> Jsons(items, KeywordText(k), codec))
  }

  lemma WordIsKeyword(s: Bytes, a: Keyword, b: Keyword, c: Keyword)
    requires a != KwNone && b != KwNone && c != KwNone
    ensures var k := KeywordOf(s);
            Among(s, KeywordText(a), KeywordText(b), KeywordText(c)) <==> k == a || k == b || k == c
  {
    hide IsWord, KeywordOf, KeywordText;
    KeywordExactly(s, a);
    KeywordExactly(s, b);
    KeywordExactly(s, c);
  }

  lemma ItemFits(g: Grammar, it: Item, a: Keyword, b: Keyword, c: Keyword)
    requires Takes(g, a, b, c)
    ensures var known := Among(it.word, KeywordText(a), KeywordText(b), KeywordText(c));
            Fits(g, it) <==> if known then it.Pair? else it.Lone? && !Strict(g)
  {
    hide Among, KeywordOf, KeywordText, RoleOf, Strict;
    WordIsKeyword(it.word, a, b, c);
  }

  lemma StrictItemsFit(g: Grammar, items: seq<Item>, a: Keyword, b: Keyword, c: Keyword)
    requires Strict(g) && Takes(g, a, b, c)
    ensures FitAll(g, items) <==> OnlyPairs(items, KeywordText(a), KeywordText(b), KeywordText(c))
  {
    hide Among, KeywordOf, KeywordText, Fits, Takes;
    forall i | 0 <= i < |items|
      ensures Fits(g, items[i]) <==>
              items[i].Pair? && Among(items[i].word, KeywordText(a), KeywordText(b), KeywordText(c))
    {
      ItemFits(g, items[i], a, b, c);
    }
  }

  lemma LenientItemsFit(g: Grammar, items: seq<Item>, a: Keyword, b: Keyword, c: Keyword)
    requires !Strict(g) && Takes(g, a, b, c)
    ensures FitAll(g, items) <==> PairsAndOthers(items, KeywordText(a), KeywordText(b), KeywordText(c))
  {
    hide Among, KeywordOf, KeywordText, Fits, Takes;
    forall i | 0 <= i < |items|
      ensures Fits(g, items[i]) <==>
              if Among(items[i].word, KeywordText(a), KeywordText(b), KeywordText(c)) then items[i].Pair?
              else items[i].Lone?
    {
      ItemFits(g, items[i], a, b, c);
    }
    assert FitAll(g, items) ==> forall i :: 0 <= i < |items| ==> Fits(g, items[i]);
  }

  lemma ItemIsSane(items: seq<Item>, i: nat, a: Keyword, b: Keyword, c: Keyword, codec: JsonCodec)
    requires i < |items| && a != KwNone && b != KwNone && c != KwNone
    requires items[i].Pair? && Among(items[i].word, KeywordText(a), KeywordText(b), KeywordText(c))
    ensures Sane(items, a, codec) && Sane(items, b, codec) && Sane(items, c, codec) ==> Good(items[i], codec)
    ensures Good(items[i], codec) ==> forall k :: k != KwNone && IsWord(items[i].word, KeywordText(k)) ==>
              && (IsNumeric(k) ==> ParseU64(items[i].operand).Some?)
              && (k.KwMeta? || k.KwSchema? ==> codec.parse(items[i].operand).Ok?)
  {
    hide IsWord, KeywordOf, KeywordText, ParseU64, Among;
    var k := KeywordOf(items[i].word);
    WordIsKeyword(items[i].word, a, b, c);
    KeywordExactly(items[i].word, k);
    forall j: Keyword | j != KwNone && IsWord(items[i].word, KeywordText(j))
      ensures j == k
    {
      KeywordExactly(items[i].word, j);
    }
  }

  lemma GoodIsSane(items: seq<Item>, a: Keyword, b: Keyword, c: Keyword, codec: JsonCodec)
    requires a != KwNone && b != KwNone && c != KwNone
    requires OnlyPairs(items, KeywordText(a), KeywordText(b), KeywordText(c))
    ensures AllGood(items, codec) <==> Sane(items, a, codec) && Sane(items, b, codec) && Sane(items, c, codec)
  {
    hide IsWord, KeywordOf, KeywordText, ParseU64, Among, Good;
    forall i | 0 <= i < |items|
      ensures Sane(items, a, codec) && Sane(items, b, codec) && Sane(items, c, codec) ==> Good(items[i], codec)
      ensures Good(items[i], codec) ==> forall k :: k != KwNone && IsWord(items[i].word, KeywordText(k)) ==>
                && (IsNumeric(k) ==> ParseU64(items[i].operand).Some?)
                && (k.KwMeta? || k.KwSchema? ==> codec.parse(items[i].operand).Ok?)
    {
      ItemIsSane(items, i, a, b, c, codec);
    }
  }

  // ---- Strict commands ----

  lemma PutIsRead(items: seq<Item>, value: Bytes, metadata: Option<Json>, ttl: Option<U64>, codec: JsonCodec)
    ensures var o := Expected(PutOptions, items, codec);
            PutItems(items, value, metadata, ttl, codec) <==>
            FitAll(PutOptions, items) && AllGood(items, codec) && value == o.value && metadata == o.json && ttl == o.ttl
  {
    hide FitAll, AllGood, OnlyPairs, Numbers, Jsons, LastOperand;
    assert Takes(PutOptions, KwValue, KwMeta, KwTtl);
    StrictItemsFit(PutOptions, items, KwValue, KwMeta, KwTtl);
    if FitAll(PutOptions, items) {
      GoodIsSane(items, KwValue, KwMeta, KwTtl, codec);
    }
  }

  lemma PutIfIsRead(items: seq<Item>, metadata: Option<Json>, expected: U64, codec: JsonCodec)
    ensures var o := Expected(PutIfOptions, items, codec);
            PutIfItems(items, metadata, expected, codec) <==>
            FitAll(PutIfOptions, items) && AllGood(items, codec) && metadata == o.json && o.version == Some(expected)
  {
    hide FitAll, AllGood, OnlyPairs, Numbers, Jsons, LastOperand;
    assert Takes(PutIfOptions, KwExpect, KwMeta, KwMeta);
    StrictItemsFit(PutIfOptions, items, KwExpect, KwMeta, KwMeta);
    if FitAll(PutIfOptions, items) {
      GoodIsSane(items, KwExpect, KwMeta, KwMeta, codec);
    }
  }

  lemma ListIsRead(items: seq<Item>, prefix: Option<Bytes>, cursor: Option<Bytes>, limit: Option<U64>, codec: JsonCodec)
    ensures var o := Expected(ListOptions, items, codec);
            ListItems(items, prefix, cursor, limit) <==>
            FitAll(ListOptions, items) && AllGood(items, codec) && prefix == o.prefixFilter && cursor == o.cursor
                && limit == o.limit
  {
    hide FitAll, AllGood, OnlyPairs, Numbers, Jsons, LastOperand;
    assert Takes(ListOptions, KwPrefix, KwCursor, KwLimit);
    StrictItemsFit(ListOptions, items, KwPrefix, KwCursor, KwLimit);
    if FitAll(ListOptions, items) {
      GoodIsSane(items, KwPrefix, KwCursor, KwLimit, codec);
    }
  }

  lemma VersionsIsRead(items: seq<Item>, limit: Option<U64>, from: Option<U64>, codec: JsonCodec)
    ensures var o := Expected(VersionsOptions, items, codec);
            VersionsItems(items, limit, from) <==>
            FitAll(VersionsOptions, items) && AllGood(items, codec) && limit == o.limit && from == o.from
  {
    hide FitAll, AllGood, OnlyPairs, Numbers, Jsons, LastOperand;
    assert Takes(VersionsOptions, KwLimit, KwFrom, KwFrom);
    StrictItemsFit(VersionsOptions, items, KwLimit, KwFrom, KwFrom);
    if FitAll(VersionsOptions, items) {
      GoodIsSane(items, KwLimit, KwFrom, KwFrom, codec);
    }
  }

  lemma CreateIsRead(items: seq<Item>, schema: Option<Json>, maxVersions: Option<U64>, retention: Option<U64>,
                     codec: JsonCodec)
    ensures var o := Expected(CreateOptions, items, codec);
            CreateItems(items, schema, maxVersions, retention, codec) <==>
            FitAll(CreateOptions, items) && AllGood(items, codec) && schema == o.json && maxVersions == o.maxVersions
                && retention == o.retention
  {
    hide FitAll, AllGood, OnlyPairs, Numbers, Jsons, LastOperand;
    assert Takes(CreateOptions, KwSchema, KwMaxVersions, KwRetention);
    StrictItemsFit(CreateOptions, items, KwSchema, KwMaxVersions, KwRetention);
    if FitAll(CreateOptions, items) {
      GoodIsSane(items, KwSchema, KwMaxVersions, KwRetention, codec);
    }
  }

  lemma GetItemFits(it: Item, codec: JsonCodec)
    ensures Fits(GetOptions, it) <==>
            (it.Pair? && IsWord(it.word, "VERSION")) || (it.Lone? && IsWord(it.word, "META"))
    ensures Good(it, codec) || !Fits(GetOptions, it) <==>
            (it.Pair? && IsWord(it.word, "VERSION") ==> ParseU64(it.operand).Some?)
  {
    hide IsWord, KeywordOf, ParseU64;
    KeywordExactly(it.word, KwVersion);
    KeywordExactly(it.word, KwMeta);
  }

  lemma GetIsRead(items: seq<Item>, version: Option<U64>, meta: bool, codec: JsonCodec)
    ensures var o := Expected(GetOptions, items, codec);
            GetItems(items, version, meta) <==>
            FitAll(GetOptions, items) && AllGood(items, codec) && version == o.version && meta == o.flag
  {
    hide IsWord, LastOperand, HasLone, Fits, Good, ParseU64;
    forall i | 0 <= i < |items|
      ensures Fits(GetOptions, items[i]) <==>
              || (items[i].Pair? && IsWord(items[i].word, "VERSION"))
              || (items[i].Lone? && IsWord(items[i].word, "META"))
      ensures Good(items[i], codec) || !Fits(GetOptions, items[i]) <==>
              (items[i].Pair? && IsWord(items[i].word, "VERSION") ==> ParseU64(items[i].operand).Some?)
    {
      GetItemFits(items[i], codec);
    }
  }

  lemma PutIsDenoted(args: seq<Bytes>, c: Command, codec: JsonCodec)
    requires c.Put?
    ensures ParsePut(args, codec) == Ok(c) <==> ArgumentsDenote(args, c, codec)
  {
    hide ReadOptions, PutItems, Expected, SpelledAll, FitAll, AllGood;
    if |args| >= 2 && |args| != 3 {
      var r := ReadOptions(PutOptions, args, 2, NO_OPTIONS, codec);
      if r.Ok? {
        StrictReadsExactly(PutOptions, args, 2, r.value, codec);
        var items :| args[2..] == SpelledAll(items) && FitAll(PutOptions, items) && AllGood(items, codec)
                     && r.value == Expected(PutOptions, items, codec);
        PutIsRead(items, r.value.value, r.value.json, r.value.ttl, codec);
      }
      forall items | args[2..] == SpelledAll(items) && PutItems(items, c.value, c.metadata, c.ttlMs, codec)
        ensures ParsePut(args, codec) == Ok(Put(args[0], args[1], c.value, c.metadata, c.ttlMs))
      {
        PutIsRead(items, c.value, c.metadata, c.ttlMs, codec);
        StrictReadsExactly(PutOptions, args, 2, Expected(PutOptions, items, codec), codec);
      }
    }
  }

  lemma GetIsDenoted(args: seq<Bytes>, c: Command, codec: JsonCodec)
    requires c.Get?
    ensures ParseGet(args, codec) == Ok(c) <==> ArgumentsDenote(args, c, codec)
  {
    hide ReadOptions, GetItems, Expected, SpelledAll, FitAll, AllGood;
    if |args| >= 2 {
      var r := ReadOptions(GetOptions, args, 2, NO_OPTIONS, codec);
      if r.Ok? {
        StrictReadsExactly(GetOptions, args, 2, r.value, codec);
        var items :| args[2..] == SpelledAll(items) && FitAll(GetOptions, items) && AllGood(items, codec)
                     && r.value == Expected(GetOptions, items, codec);
        GetIsRead(items, r.value.version, r.value.flag, codec);
      }
      forall items | args[2..] == SpelledAll(items) && GetItems(items, c.version, c.meta)
        ensures ParseGet(args, codec) == Ok(Get(args[0], args[1], c.version, c.meta))
      {
        GetIsRead(items, c.version, c.meta, codec);
        StrictReadsExactly(GetOptions, args, 2, Expected(GetOptions, items, codec), codec);
      }
    }
  }

  lemma PutIfIsDenoted(args: seq<Bytes>, c: Command, codec: JsonCodec)
    requires c.PutIf?
    ensures ParsePutIf(args, codec) == Ok(c) <==> ArgumentsDenote(args, c, codec)
  {
    hide ReadOptions, PutIfItems, Expected, SpelledAll, FitAll, AllGood;
    if |args| >= 5 {
      var r := ReadOptions(PutIfOptions, args, 3, NO_OPTIONS, codec);
      if r.Ok? && r.value.version.Some? {
        StrictReadsExactly(PutIfOptions, args, 3, r.value, codec);
        var items :| args[3..] == SpelledAll(items) && FitAll(PutIfOptions, items) && AllGood(items, codec)
                     && r.value == Expected(PutIfOptions, items, codec);
        PutIfIsRead(items, r.value.json, r.value.version.value, codec);
      }
      forall items | args[3..] == SpelledAll(items) && PutIfItems(items, c.metadata, c.expected, codec)
        ensures ParsePutIf(args, codec) == Ok(PutIf(args[0], args[1], args[2], c.metadata, c.expected))
      {
        PutIfIsRead(items, c.metadata, c.expected, codec);
        StrictReadsExactly(PutIfOptions, args, 3, Expected(PutIfOptions, items, codec), codec);
      }
    }
  }

  lemma ListIsDenoted(args: seq<Bytes>, c: Command, codec: JsonCodec)
    requires c.List?
    ensures ParseList(args, codec) == Ok(c) <==> ArgumentsDenote(args, c, codec)
  {
    hide ReadOptions, ListItems, Expected, SpelledAll, FitAll, AllGood;
    if |args| >= 1 {
      var r := ReadOptions(ListOptions, args, 1, NO_OPTIONS, codec);
      if r.Ok? {
        StrictReadsExactly(ListOptions, args, 1, r.value, codec);
        var items :| args[1..] == SpelledAll(items) && FitAll(ListOptions, items) && AllGood(items, codec)
                     && r.value == Expected(ListOptions, items, codec);
        ListIsRead(items, r.value.prefixFilter, r.value.cursor, r.value.limit, codec);
      }
      forall items | args[1..] == SpelledAll(items) && ListItems(items, c.prefixFilter, c.cursor, c.limit)
        ensures ParseList(args, codec) == Ok(List(args[0], c.prefixFilter, c.cursor, c.limit))
      {
        ListIsRead(items, c.prefixFilter, c.cursor, c.limit, codec);
        StrictReadsExactly(ListOptions, args, 1, Expected(ListOptions, items, codec), codec);
      }
    }
  }

  lemma VersionsIsDenoted(args: seq<Bytes>, c: Command, codec: JsonCodec)
    requires c.Versions?
    ensures ParseVersions(args, codec) == Ok(c) <==> ArgumentsDenote(args, c, codec)
  {
    hide ReadOptions, VersionsItems, Expected, SpelledAll, FitAll, AllGood;
    if |args| >= 2 {
      var r := ReadOptions(VersionsOptions, args, 2, NO_OPTIONS, codec);
      if r.Ok? {
        StrictReadsExactly(VersionsOptions, args, 2, r.value, codec);
        var items :| args[2..] == SpelledAll(items) && FitAll(VersionsOptions, items) && AllGood(items, codec)
                     && r.value == Expected(VersionsOptions, items, codec);
        VersionsIsRead(items, r.value.limit, r.value.from, codec);
      }
      forall items | args[2..] == SpelledAll(items) && VersionsItems(items, c.limit, c.from)
        ensures ParseVersions(args, codec) == Ok(Versions(args[0], args[1], c.limit, c.from))
      {
        VersionsIsRead(items, c.limit, c.from, codec);
        StrictReadsExactly(VersionsOptions, args, 2, Expected(VersionsOptions, items, codec), codec);
      }
    }
  }

  // ---- Lenient commands ----

  lemma TailDangles(g: Grammar, tail: seq<Bytes>, a: Keyword, b: Keyword, c: Keyword)
    requires Takes(g, a, b, c)
    ensures Dangling(g, tail) <==> Unfinished(tail, KeywordText(a), KeywordText(b), KeywordText(c))
    ensures forall k :: k != KwNone ==> (Cuts(tail, KeywordText(k)) <==> tail != [] && KeywordOf(tail[0]) == k)
  {
    hide IsWord, KeywordOf, KeywordText, Among;
    if tail != [] {
      WordIsKeyword(tail[0], a, b, c);
      forall k: Keyword | k != KwNone
        ensures Cuts(tail, KeywordText(k)) <==> KeywordOf(tail[0]) == k
      {
        KeywordExactly(tail[0], k);
      }
    }
  }

  lemma AlterIsRead(items: seq<Item>, tail: seq<Bytes>, schema: Option<Json>, maxVersions: Option<U64>,
                    retention: Option<U64>, codec: JsonCodec)
    ensures var o := Ended(AlterOptions, items, tail, codec);
            AlterItems(items, tail, schema, maxVersions, retention, codec) <==>
            && FitAll(AlterOptions, items) && Dangling(AlterOptions, tail)
            && schema == o.json && maxVersions == o.maxVersions && retention == o.retention
  {
    hide FitAll, Dangling, PairsAndOthers, LastOperand, KeywordOf, Cuts, Unfinished;
    assert Takes(AlterOptions, KwSchema, KwMaxVersions, KwRetention);
    LenientItemsFit(AlterOptions, items, KwSchema, KwMaxVersions, KwRetention);
    TailDangles(AlterOptions, tail, KwSchema, KwMaxVersions, KwRetention);
    assert Cuts(tail, KeywordText(KwSchema)) <==> tail != [] && KeywordOf(tail[0]) == KwSchema;
    assert Cuts(tail, KeywordText(KwMaxVersions)) <==> tail != [] && KeywordOf(tail[0]) == KwMaxVersions;
    assert Cuts(tail, KeywordText(KwRetention)) <==> tail != [] && KeywordOf(tail[0]) == KwRetention;
  }

  lemma NamespaceListIsRead(items: seq<Item>, tail: seq<Bytes>, cursor: Option<Bytes>, limit: Option<U64>,
                            codec: JsonCodec)
    ensures var o := Ended(NamespaceListOptions, items, tail, codec);
            NamespaceListItems(items, tail, cursor, limit) <==>
            && FitAll(NamespaceListOptions, items) && Dangling(NamespaceListOptions, tail)
            && cursor == o.cursor && limit == o.limit
  {
    hide FitAll, Dangling, PairsAndOthers, LastOperand, KeywordOf, Cuts, Unfinished;
    assert Takes(NamespaceListOptions, KwCursor, KwLimit, KwLimit);
    LenientItemsFit(NamespaceListOptions, items, KwCursor, KwLimit, KwLimit);
    TailDangles(NamespaceListOptions, tail, KwCursor, KwLimit, KwLimit);
    assert Cuts(tail, KeywordText(KwCursor)) <==> tail != [] && KeywordOf(tail[0]) == KwCursor;
    assert Cuts(tail, KeywordText(KwLimit)) <==> tail != [] && KeywordOf(tail[0]) == KwLimit;
  }

  /** What SUBSCRIBE makes of a word. */
  predicate SubscribeItem(it: Item) {
    match it
    case Pair(word, _) => IsWord(word, "KEY")
    case Names(word, names) => IsWord(word, "EVENTS") && forall j :: 0 <= j < |names| ==> !IsWord(names[j], "KEY")
    case Lone(word) => !IsWord(word, "KEY") && !IsWord(word, "EVENTS")
  }

  lemma SubscribeItemFits(it: Item)
    ensures Fits(SubscribeOptions, it) <==> SubscribeItem(it)
  {
    hide IsWord, KeywordOf;
    KeywordExactly(it.word, KwKey);
    KeywordExactly(it.word, KwEvents);
    if it.Names? {
      forall j | 0 <= j < |it.names|
        ensures IsWord(it.names[j], "KEY") <==> KeywordOf(it.names[j]).KwKey?
      {
        KeywordExactly(it.names[j], KwKey);
      }
    }
  }

  lemma SubscribeTail(tail: seq<Bytes>, o: Options)
    ensures Dangling(SubscribeOptions, tail) <==> Unfinished(tail, "KEY", "KEY", "KEY")
    ensures Dangling(SubscribeOptions, tail) && tail != [] ==> Cleared(KeywordOf(tail[0]), o) == o
  {
    hide IsWord, KeywordOf;
    if tail != [] {
      KeywordExactly(tail[0], KwKey);
    }
  }

  lemma SubscribeIsRead(items: seq<Item>, tail: seq<Bytes>, key: Option<Bytes>, events: seq<Bytes>, codec: JsonCodec)
    ensures var o := Ended(SubscribeOptions, items, tail, codec);
            SubscribeItems(items, tail, key, events) <==>
            && FitAll(SubscribeOptions, items) && Dangling(SubscribeOptions, tail)
            && key == o.key && events == o.events
  {
    hide Dangling, LastOperand, KeywordOf, Unfinished, Fits, NamesOf, IsWord, Cleared;
    forall i | 0 <= i < |items|
      ensures Fits(SubscribeOptions, items[i]) <==> SubscribeItem(items[i])
    {
      SubscribeItemFits(items[i]);
    }
    SubscribeTail(tail, Expected(SubscribeOptions, items, codec));
  }

  lemma SubscribeIsDenoted(args: seq<Bytes>, c: Command, codec: JsonCodec)
    requires c.Subscribe?
    ensures ParseSubscribe(args, codec) == Ok(c) <==> ArgumentsDenote(args, c, codec)
  {
    hide ReadOptions, SubscribeItems, Ended, SpelledAll, FitAll, Dangling;
    if |args| >= 1 {
      var r := ReadOptions(SubscribeOptions, args, 1, NO_OPTIONS, codec);
      if r.Ok? {
        LenientReadsExactly(SubscribeOptions, args, 1, r.value, codec);
        var items, tail :| args[1..] == SpelledAll(items) + tail && FitAll(SubscribeOptions, items)
                           && Dangling(SubscribeOptions, tail)
                           && r.value == Ended(SubscribeOptions, items, tail, codec);
        SubscribeIsRead(items, tail, r.value.key, r.value.events, codec);
      }
      forall items, tail | args[1..] == SpelledAll(items) + tail && SubscribeItems(items, tail, c.keyFilter, c.events)
        ensures ParseSubscribe(args, codec) == Ok(Subscribe(args[0], c.keyFilter, c.events))
      {
        SubscribeIsRead(items, tail, c.keyFilter, c.events, codec);
        LenientReadsExactly(SubscribeOptions, args, 1, Ended(SubscribeOptions, items, tail, codec), codec);
      }
    }
  }

  // ---- Namespaces ----

  lemma SubExactly(s: Bytes)
    ensures SubOf(s) == SubCreate <==> IsWord(s, "CREATE")
    ensures SubOf(s) == SubDrop <==> IsWord(s, "DROP")
    ensures SubOf(s) == SubList <==> IsWord(s, "LIST")
    ensures SubOf(s) == SubInfo <==> IsWord(s, "INFO")
    ensures SubOf(s) == SubAlter <==> IsWord(s, "ALTER")
    ensures SubOf(s) == SubValidate <==> IsWord(s, "VALIDATE")
  {
    hide IsWord, Upper;
    WordExactly(s, "CREATE");
    WordExactly(s, "DROP");
    WordExactly(s, "LIST");
    WordExactly(s, "INFO");
    WordExactly(s, "ALTER");
    WordExactly(s, "VALIDATE");
  }

  lemma CreateIsDenoted(args: seq<Bytes>, c: Command, codec: JsonCodec)
    requires c.NamespaceCreate? && args != [] && SubOf(args[0]).SubCreate?
    ensures ParseNamespace(args, codec) == Ok(c) <==> NamespaceDenotes(args, c, codec)
  {
    hide ReadOptions, CreateItems, Expected, SpelledAll, FitAll, AllGood, SubOf, IsWord;
    SubExactly(args[0]);
    var rest := args[1..];
    if |rest| >= 1 {
      assert rest[1..] == args[2..];
      var r := ReadOptions(CreateOptions, rest, 1, NO_OPTIONS, codec);
      if r.Ok? {
        StrictReadsExactly(CreateOptions, rest, 1, r.value, codec);
        var items :| rest[1..] == SpelledAll(items) && FitAll(CreateOptions, items) && AllGood(items, codec)
                     && r.value == Expected(CreateOptions, items, codec);
        CreateIsRead(items, r.value.json, r.value.maxVersions, r.value.retention, codec);
      }
      forall items | args[2..] == SpelledAll(items) && CreateItems(items, c.schema, c.maxVersions, c.retention, codec)
        ensures ParseNamespace(args, codec) == Ok(NamespaceCreate(args[1], c.schema, c.maxVersions, c.retention))
      {
        CreateIsRead(items, c.schema, c.maxVersions, c.retention, codec);
        StrictReadsExactly(CreateOptions, rest, 1, Expected(CreateOptions, items, codec), codec);
      }
    }
  }

  lemma AlterIsDenoted(args: seq<Bytes>, c: Command, codec: JsonCodec)
    requires c.NamespaceAlter? && args != [] && SubOf(args[0]).SubAlter?
    ensures ParseNamespace(args, codec) == Ok(c) <==> NamespaceDenotes(args, c, codec)
  {
    hide ReadOptions, AlterItems, Ended, SpelledAll, FitAll, Dangling, SubOf, IsWord;
    SubExactly(args[0]);
    var rest := args[1..];
    if |rest| >= 1 {
      assert rest[1..] == args[2..];
      var r := ReadOptions(AlterOptions, rest, 1, NO_OPTIONS, codec);
      if r.Ok? {
        LenientReadsExactly(AlterOptions, rest, 1, r.value, codec);
        var items, tail :| rest[1..] == SpelledAll(items) + tail && FitAll(AlterOptions, items)
                           && Dangling(AlterOptions, tail) && r.value == Ended(AlterOptions, items, tail, codec);
        AlterIsRead(items, tail, r.value.json, r.value.maxVersions, r.value.retention, codec);
      }
      forall items, tail | args[2..] == SpelledAll(items) + tail
                           && AlterItems(items, tail, c.schema, c.maxVersions, c.retention, codec)
        ensures ParseNamespace(args, codec) == Ok(NamespaceAlter(args[1], c.schema, c.maxVersions, c.retention))
      {
        AlterIsRead(items, tail, c.schema, c.maxVersions, c.retention, codec);
        LenientReadsExactly(AlterOptions, rest, 1, Ended(AlterOptions, items, tail, codec), codec);
      }
    }
  }

  lemma NamesAreDenoted(args: seq<Bytes>, c: Command, codec: JsonCodec)
    requires c.NamespaceList? && args != [] && SubOf(args[0]).SubList?
    ensures ParseNamespace(args, codec) == Ok(c) <==> NamespaceDenotes(args, c, codec)
  {
    hide ReadOptions, NamespaceListItems, Ended, SpelledAll, FitAll, Dangling, SubOf, IsWord;
    SubExactly(args[0]);
    var rest := args[1..];
    assert rest[0..] == rest;
    var r := ReadOptions(NamespaceListOptions, rest, 0, NO_OPTIONS, codec);
    if r.Ok? {
      LenientReadsExactly(NamespaceListOptions, rest, 0, r.value, codec);
      var items, tail :| rest[0..] == SpelledAll(items) + tail && FitAll(NamespaceListOptions, items)
                         && Dangling(NamespaceListOptions, tail)
                         && r.value == Ended(NamespaceListOptions, items, tail, codec);
      NamespaceListIsRead(items, tail, r.value.cursor, r.value.limit, codec);
    }
    forall items, tail | args[1..] == SpelledAll(items) + tail && NamespaceListItems(items, tail, c.cursor, c.limit)
      ensures ParseNamespace(args, codec) == Ok(NamespaceList(c.cursor, c.limit))
    {
      NamespaceListIsRead(items, tail, c.cursor, c.limit, codec);
      LenientReadsExactly(NamespaceListOptions, rest, 0, Ended(NamespaceListOptions, items, tail, codec), codec);
    }
  }

  predicate IsNamespaceCommand(c: Command) {
    || c.NamespaceCreate? || c.NamespaceDrop? || c.NamespaceList? || c.NamespaceInfo? || c.NamespaceAlter?
    || c.NamespaceValidate?
  }

  /** The subcommand of each. */
  function SubFor(c: Command): Sub
    requires IsNamespaceCommand(c)
  {
    match c
    case NamespaceCreate(_, _, _, _) => SubCreate
    case NamespaceDrop(_, _) => SubDrop
    case NamespaceList(_, _) => SubList
    case NamespaceInfo(_) => SubInfo
    case NamespaceAlter(_, _, _, _) => SubAlter
    case NamespaceValidate(_) => SubValidate
  }

  lemma SubDecides(args: seq<Bytes>, c: Command, codec: JsonCodec)
    requires IsNamespaceCommand(c)
    ensures ParseNamespace(args, codec) == Ok(c) ==> args != [] && SubOf(args[0]) == SubFor(c)
    ensures NamespaceDenotes(args, c, codec) ==> args != [] && SubOf(args[0]) == SubFor(c)
  {
    hide ReadOptions, SubOf, IsWord, Upper, CreateItems, AlterItems, NamespaceListItems, SpelledAll;
    if args != [] {
      SubExactly(args[0]);
    }
  }

  lemma NamespaceIsDenoted(args: seq<Bytes>, c: Command, codec: JsonCodec)
    requires IsNamespaceCommand(c)
    ensures ParseNamespace(args, codec) == Ok(c) <==> NamespaceDenotes(args, c, codec)
  {
    hide ParseNamespace, NamespaceDenotes, SubOf;
    SubDecides(args, c, codec);
    if args != [] && SubOf(args[0]) == SubFor(c) {
      match c
      case NamespaceCreate(_, _, _, _) => CreateIsDenoted(args, c, codec);
      case NamespaceAlter(_, _, _, _) => AlterIsDenoted(args, c, codec);
      case NamespaceList(_, _) => NamesAreDenoted(args, c, codec);
      case _ => PlainNamespaceIsDenoted(args, c, codec);
    }
  }

  lemma PlainNamespaceIsDenoted(args: seq<Bytes>, c: Command, codec: JsonCodec)
    requires c.NamespaceDrop? || c.NamespaceInfo? || c.NamespaceValidate?
    requires args != [] && SubOf(args[0]) == SubFor(c)
    ensures ParseNamespace(args, codec) == Ok(c) <==> NamespaceDenotes(args, c, codec)
  {
    hide ReadOptions, SubOf, IsWord, Upper;
    SubExactly(args[0]);
    if |args| >= 3 {
      WordExactly(args[2], "FORCE");
    }
  }

  // ---- All commands ----

  /** The verb of a command, as the parser tells them apart. */
  function VerbFor(c: Command): Verb {
    match c
    case Auth(_) => VAuth
    case Ping => VPing
    case Put(_, _, _, _, _) => VPut
    case Get(_, _, _, _) => VGet
    case Delete(_, _) => VDelete
    case PutIf(_, _, _, _, _) => VPutIf
    case DelIf(_, _, _) => VDelIf
    case DelPrefix(_, _) => VDelPrefix
    case List(_, _, _, _) => VList
    case Versions(_, _, _, _) => VVersions
    case Subscribe(_, _, _) => VSubscribe
    case Unsubscribe => VUnsubscribe
    case Health => VHealth
    case ConfigGet(_) => VConfig
    case ConfigSet(_, _) => VConfig
    case CommandList => VCommand
    case Rekey(_) => VRekey
    case RekeyStatus => VRekey
    case Pipeline(_, _) => VPipeline
    case _ => VNamespace
  }

  predicate IsKeyCommand(c: Command) {
    c.Put? || c.Get? || c.Delete? || c.PutIf? || c.DelIf? || c.DelPrefix? || c.List? || c.Versions?
  }

  predicate IsSessionCommand(c: Command) {
    IsNamespaceCommand(c) || c.Auth? || c.Ping? || c.Subscribe? || c.Unsubscribe?
  }

  lemma VerbExactly(s: Bytes, c: Command)
    ensures IsWord(s, FirstWord(c)) <==> VerbOf(s) == VerbFor(c)
  {
    hide IsWord, VerbOf, FirstWord, Upper;
    FirstWordIsCapital(c);
    WordExactly(s, FirstWord(c));
    if IsKeyCommand(c) {
      KeyVerb(s, c);
    } else if IsSessionCommand(c) {
      SessionVerb(s, c);
    } else if c.Health? || c.ConfigGet? || c.ConfigSet? {
      ServiceVerb(s, c);
    } else {
      LastVerb(s, c);
    }
  }

  lemma FirstWordIsCapital(c: Command)
    ensures Capital(FirstWord(c))
  {
  }

  lemma KeyVerb(s: Bytes, c: Command)
    requires IsKeyCommand(c)
    ensures Upper(s) == FirstWord(c) <==> VerbOf(s) == VerbFor(c)
  {
    hide Upper;
  }

  lemma SessionVerb(s: Bytes, c: Command)
    requires IsSessionCommand(c)
    ensures Upper(s) == FirstWord(c) <==> VerbOf(s) == VerbFor(c)
  {
    hide Upper;
  }

  lemma ServiceVerb(s: Bytes, c: Command)
    requires c.Health? || c.ConfigGet? || c.ConfigSet?
    ensures Upper(s) == FirstWord(c) <==> VerbOf(s) == VerbFor(c)
  {
    hide Upper;
  }

  lemma LastVerb(s: Bytes, c: Command)
    requires c.CommandList? || c.Rekey? || c.RekeyStatus? || c.Pipeline?
    ensures Upper(s) == FirstWord(c) <==> VerbOf(s) == VerbFor(c)
  {
    hide Upper;
  }

  lemma NamespaceParsesToNamespace(args: seq<Bytes>, codec: JsonCodec)
    ensures ParseNamespace(args, codec).Ok? ==> IsNamespaceCommand(ParseNamespace(args, codec).value)
  {
    hide ReadOptions, SubOf, Upper;
  }

  lemma VerbDecides(strings: seq<Bytes>, codec: JsonCodec)
    requires strings != []
    ensures ParseArgs(strings, codec).Ok? ==> VerbFor(ParseArgs(strings, codec).value) == VerbOf(strings[0])
  {
    hide VerbOf, ParsePut, ParseGet, ParsePutIf, ParseList, ParseVersions, ParseSubscribe, ParseNamespace;
    hide ParseDelete, ParseDelIf, ParseDelPrefix, ParseConfig, ParseRekey, ParseCommandSub;
    var args := strings[1..];
    match VerbOf(strings[0])
    case VNamespace => NamespaceParsesToNamespace(args, codec);
    case VPut => OptionsKeepKind(args, codec);
    case VGet => OptionsKeepKind(args, codec);
    case VPutIf => OptionsKeepKind(args, codec);
    case VList => OptionsKeepKind(args, codec);
    case VVersions => OptionsKeepKind(args, codec);
    case VSubscribe => OptionsKeepKind(args, codec);
    case VDelete => PlainKeepKind(args);
    case VDelIf => PlainKeepKind(args);
    case VDelPrefix => PlainKeepKind(args);
    case VConfig => PlainKeepKind(args);
    case VRekey => PlainKeepKind(args);
    case VCommand => PlainKeepKind(args);
    case _ =>
  }

  lemma OptionsKeepKind(args: seq<Bytes>, codec: JsonCodec)
    ensures ParsePut(args, codec).Ok? ==> ParsePut(args, codec).value.Put?
    ensures ParseGet(args, codec).Ok? ==> ParseGet(args, codec).value.Get?
    ensures ParsePutIf(args, codec).Ok? ==> ParsePutIf(args, codec).value.PutIf?
    ensures ParseList(args, codec).Ok? ==> ParseList(args, codec).value.List?
    ensures ParseVersions(args, codec).Ok? ==> ParseVersions(args, codec).value.Versions?
    ensures ParseSubscribe(args, codec).Ok? ==> ParseSubscribe(args, codec).value.Subscribe?
  {
    hide ReadOptions;
  }

  lemma PlainKeepKind(args: seq<Bytes>)
    ensures ParseDelete(args).Ok? ==> ParseDelete(args).value.Delete?
    ensures ParseDelIf(args).Ok? ==> ParseDelIf(args).value.DelIf?
    ensures ParseDelPrefix(args).Ok? ==> ParseDelPrefix(args).value.DelPrefix?
    ensures ParseConfig(args).Ok? ==> ParseConfig(args).value.ConfigGet? || ParseConfig(args).value.ConfigSet?
    ensures ParseRekey(args).Ok? ==> ParseRekey(args).value.Rekey? || ParseRekey(args).value.RekeyStatus?
    ensures ParseCommandSub(args).Ok? ==> ParseCommandSub(args).value.CommandList?
  {
    hide KeywordOf, Upper, ParseU64;
  }

  lemma PlainIsDenoted(strings: seq<Bytes>, c: Command, codec: JsonCodec)
    requires strings != [] && VerbOf(strings[0]) == VerbFor(c)
    requires c.Auth? || c.Ping? || c.Delete? || c.Unsubscribe? || c.Health? || c.DelIf? || c.DelPrefix?
    ensures ParseArgs(strings, codec) == Ok(c) <==> ArgumentsDenote(strings[1..], c, codec)
  {
    hide VerbOf, IsWord, KeywordOf, ParseU64;
    if c.DelIf? && |strings| >= 4 {
      KeywordExactly(strings[1..][2], KwExpect);
    }
  }

  lemma ServiceIsDenoted(strings: seq<Bytes>, c: Command, codec: JsonCodec)
    requires strings != [] && VerbOf(strings[0]) == VerbFor(c)
    requires c.ConfigGet? || c.ConfigSet? || c.CommandList? || c.Rekey? || c.RekeyStatus?
    ensures ParseArgs(strings, codec) == Ok(c) <==> ArgumentsDenote(strings[1..], c, codec)
  {
    hide VerbOf, IsWord, Upper;
    if |strings| >= 2 {
      var word := strings[1..][0];
      WordExactly(word, "GET");
      WordExactly(word, "SET");
      WordExactly(word, "LIST");
      WordExactly(word, "STATUS");
      StatusIsShort(word);
    }
  }

  lemma StatusIsShort(s: Bytes)
    ensures Upper(s) == "STATUS" ==> |s| != 64
  {
  }

  /**
    The parser's language: a list of strings is parsed to a command exactly when it denotes that command. Every
    other list is refused.
   */
  lemma ParsesExactly(strings: seq<Bytes>, c: Command, codec: JsonCodec)
    requires strings != []
    ensures ParseArgs(strings, codec) == Ok(c) <==> Denotes(strings, c, codec)
  {
    hide ArgumentsDenote, VerbOf, IsWord, FirstWord, NamespaceDenotes, ParsePut, ParseGet, ParsePutIf, ParseList;
    hide ParseVersions, ParseSubscribe, ParseNamespace, ParseDelete, ParseDelIf, ParseDelPrefix, ParseConfig;
    hide ParseRekey, ParseCommandSub;
    VerbExactly(strings[0], c);
    VerbDecides(strings, codec);
    var args := strings[1..];
    if VerbOf(strings[0]) == VerbFor(c) {
      match c
      case Put(_, _, _, _, _) => PutIsDenoted(args, c, codec);
      case Get(_, _, _, _) => GetIsDenoted(args, c, codec);
      case PutIf(_, _, _, _, _) => PutIfIsDenoted(args, c, codec);
      case List(_, _, _, _) => ListIsDenoted(args, c, codec);
      case Versions(_, _, _, _) => VersionsIsDenoted(args, c, codec);
      case Subscribe(_, _, _) => SubscribeIsDenoted(args, c, codec);
      case Pipeline(_, _) => PipelineIsNotFlat(args, c, codec);
      case ConfigGet(_) => ServiceIsDenoted(strings, c, codec);
      case ConfigSet(_, _) => ServiceIsDenoted(strings, c, codec);
      case CommandList => ServiceIsDenoted(strings, c, codec);
      case Rekey(_) => ServiceIsDenoted(strings, c, codec);
      case RekeyStatus => ServiceIsDenoted(strings, c, codec);
      case Auth(_) => PlainIsDenoted(strings, c, codec);
      case Ping => PlainIsDenoted(strings, c, codec);
      case Delete(_, _) => PlainIsDenoted(strings, c, codec);
      case DelIf(_, _, _) => PlainIsDenoted(strings, c, codec);
      case DelPrefix(_, _) => PlainIsDenoted(strings, c, codec);
      case Unsubscribe => PlainIsDenoted(strings, c, codec);
      case Health => PlainIsDenoted(strings, c, codec);
      case _ =>
        NamespaceIsDenoted(args, c, codec);
        NamespaceArguments(args, c, codec);
    }
  }

  lemma PipelineIsNotFlat(args: seq<Bytes>, c: Command, codec: JsonCodec)
    requires c.Pipeline?
    ensures !ArgumentsDenote(args, c, codec)
  {
  }

  lemma NamespaceArguments(args: seq<Bytes>, c: Command, codec: JsonCodec)
    requires IsNamespaceCommand(c)
    ensures ArgumentsDenote(args, c, codec) <==> NamespaceDenotes(args, c, codec)
  {
    hide NamespaceDenotes;
  }
}
