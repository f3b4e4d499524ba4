/**
  Option lists told by their words: what a list of options comes to is decided, option by option, by the last
  operand written after its keyword.
 */
module OptionLists {
  import opened Text
  import opened Decimal
  import opened Commands
  import opened CommandParser

  // ---- Words ----

  /** The text is the word, which is given in capitals, in any letter case. */
  predicate IsWord(s: Bytes, word: Bytes) {
    |s| == |word| && forall i :: 0 <= i < |s| ==> IsLetter(s[i], word[i])
  }

  predicate IsLetter(c: Byte, capital: Byte) {
    c == capital || ('A' <= capital <= 'Z' && c as int == capital as int + 32)
  }

  /** No small letters. */
  predicate Capital(word: Bytes) {
    forall i :: 0 <= i < |word| ==> !('a' <= word[i] <= 'z')
  }

  lemma WordExactly(s: Bytes, word: Bytes)
    requires Capital(word)
    ensures IsWord(s, word) <==> Upper(s) == word
  {
    if IsWord(s, word) {
      forall i | 0 <= i < |s|
        ensures Upper(s)[i] == word[i]
      {
        assert IsLetter(s[i], word[i]);
      }
    }
    if Upper(s) == word {
      forall i | 0 <= i < |s|
        ensures IsLetter(s[i], word[i])
      {
        assert Upper(s)[i] == word[i];
      }
    }
  }

  /** The keywords are told apart by their words alone. */
  lemma KeywordExactly(s: Bytes, k: Keyword)
    requires k != KwNone
    ensures IsWord(s, KeywordText(k)) <==> KeywordOf(s) == k
  {
    hide IsWord, Upper;
    WordExactly(s, KeywordText(k));
    hide Capital;
    KeywordIsText(s, k);
  }

  lemma KeywordIsText(s: Bytes, k: Keyword)
    requires k != KwNone
    ensures Upper(s) == KeywordText(k) <==> KeywordOf(s) == k
  {
    hide Upper;
    if KeywordOf(s) == k {
      KeywordHasText(s);
    } else if Upper(s) == KeywordText(k) && KeywordOf(s) != KwNone {
      KeywordHasText(s);
      TextsDiffer(KeywordOf(s), k);
    } else if Upper(s) == KeywordText(k) {
      TextIsKeyword(s, k);
    }
  }

  lemma KeywordHasText(s: Bytes)
    ensures KeywordOf(s) != KwNone ==> Upper(s) == KeywordText(KeywordOf(s))
  {
    hide Upper;
  }

  lemma TextIsKeyword(s: Bytes, k: Keyword)
    requires k != KwNone && Upper(s) == KeywordText(k)
    ensures KeywordOf(s) != KwNone
  {
    hide Upper;
  }

  /** The keywords are told apart by their length, their first and their third letter. */
  lemma TextsDiffer(j: Keyword, k: Keyword)
    requires j != k && j != KwNone && k != KwNone
    ensures KeywordText(j) != KeywordText(k)
  {
    var a, b := KeywordText(j), KeywordText(k);
    assert |a| >= 3 && |b| >= 3;
    assert (|a|, a[0], a[2]) != (|b|, b[0], b[2]);
  }

  // ---- Options as they are written ----

  /** A word alone, a keyword with its operand, or a keyword with any number of names. */
  datatype Item = Lone(word: Bytes) | Pair(word: Bytes, operand: Bytes) | Names(word: Bytes, names: seq<Bytes>)

  function Spelled(it: Item): (args: seq<Bytes>)
    ensures |args| >= 1 && args[0] == it.word
  {
    match it
    case Lone(word) => [word]
    case Pair(word, operand) => [word, operand]
    case Names(word, names) => [word] + names
  }

  function SpelledAll(items: seq<Item>): seq<Bytes> {
    if items == [] then [] else SpelledAll(items[..|items| - 1]) + Spelled(items[|items| - 1])
  }

  /** The operand written last after a word. */
  function LastOperand(items: seq<Item>, word: Bytes): Option<Bytes> {
    if items == [] then None
    else
      var it := items[|items| - 1];
      if it.Pair? && IsWord(it.word, word) then Some(it.operand) else LastOperand(items[..|items| - 1], word)
  }

  function NumberOf(items: seq<Item>, word: Bytes): Option<U64> {
    match LastOperand(items, word)
    case None => None
    case Some(s) => ParseU64(s)
  }

  function JsonValue(operand: Bytes, codec: JsonCodec): Option<Json> {
    if codec.parse(operand).Ok? then Some(codec.parse(operand).value) else None
  }

  function JsonOf(items: seq<Item>, word: Bytes, codec: JsonCodec): Option<Json> {
    match LastOperand(items, word)
    case None => None
    case Some(s) => JsonValue(s, codec)
  }

  function TextOf(items: seq<Item>, word: Bytes): Bytes {
    match LastOperand(items, word)
    case None => []
    case Some(s) => s
  }

  predicate HasLone(items: seq<Item>, word: Bytes) {
    exists i :: 0 <= i < |items| && items[i].Lone? && IsWord(items[i].word, word)
  }

  /** All names, in capitals. */
  function NamesOf(items: seq<Item>): seq<Bytes> {
    if items == [] then []
    else
      var it := items[|items| - 1];
      NamesOf(items[..|items| - 1]) + if it.Names? then Uppers(it.names) else []
  }

  // ---- Against the reader ----

  /** The item is one the command takes in this form, or passes over. */
  predicate Fits(g: Grammar, it: Item) {
    var role := RoleOf(g, KeywordOf(it.word));
    match it
    case Lone(_) => role.IsFlag? || (role.Unknown? && !Strict(g))
    case Pair(_, _) => role.TakesOperand?
    case Names(_, names) => role.TakesMany? && NoKey(names)
  }

  predicate NoKey(names: seq<Bytes>) {
    forall i :: 0 <= i < |names| ==> !KeywordOf(names[i]).KwKey?
  }

  /** Every item fits, and names go on to the next operand or the end. */
  predicate FitAll(g: Grammar, items: seq<Item>) {
    && (forall i :: 0 <= i < |items| ==> Fits(g, items[i]))
    && forall i :: 0 <= i < |items| - 1 && items[i].Names? ==> items[i + 1].Pair?
  }

  predicate IsNumeric(k: Keyword) {
    || k.KwTtl? || k.KwVersion? || k.KwExpect? || k.KwLimit? || k.KwFrom? || k.KwMaxVersions? || k.KwRetention?
  }

  /** An operand that has to be a number or JSON is. */
  predicate Good(it: Item, codec: JsonCodec) {
    it.Pair? ==>
      var k := KeywordOf(it.word);
      && (IsNumeric(k) ==> ParseU64(it.operand).Some?)
      && (k.KwMeta? || k.KwSchema? ==> codec.parse(it.operand).Ok?)
  }

  predicate AllGood(items: seq<Item>, codec: JsonCodec) {
    forall i :: 0 <= i < |items| ==> Good(items[i], codec)
  }

  function JsonWord(g: Grammar): Keyword {
    if g.CreateOptions? || g.AlterOptions? then KwSchema else KwMeta
  }

  function VersionWord(g: Grammar): Keyword {
    if g.PutIfOptions? then KwExpect else KwVersion
  }

  /** What items come to, each option by itself. */
  function Expected(g: Grammar, items: seq<Item>, codec: JsonCodec): Options {
    Options(
      TextOf(items, KeywordText(KwValue)),
      JsonOf(items, KeywordText(JsonWord(g)), codec),
      NumberOf(items, KeywordText(KwTtl)),
      NumberOf(items, KeywordText(VersionWord(g))),
      g.GetOptions? && HasLone(items, KeywordText(KwMeta)),
      LastOperand(items, KeywordText(KwPrefix)),
      LastOperand(items, KeywordText(KwCursor)),
      NumberOf(items, KeywordText(KwLimit)),
      NumberOf(items, KeywordText(KwFrom)),
      NumberOf(items, KeywordText(KwMaxVersions)),
      NumberOf(items, KeywordText(KwRetention)),
      LastOperand(items, KeywordText(KwKey)),
      NamesOf(items))
  }

  lemma NothingExpected(g: Grammar, codec: JsonCodec)
    ensures Expected(g, [], codec) == NO_OPTIONS
  {
    hide KeywordText;
  }

  /** The options with one of them set. */
  function SetTo(k: Keyword, operand: Bytes, o: Options, codec: JsonCodec): Options {
    match k
    case KwValue => o.(value := operand)
    case KwPrefix => o.(prefixFilter := Some(operand))
    case KwCursor => o.(cursor := Some(operand))
    case KwKey => o.(key := Some(operand))
    case KwMeta => o.(json := JsonValue(operand, codec))
    case KwSchema => o.(json := JsonValue(operand, codec))
    case KwTtl => o.(ttl := ParseU64(operand))
    case KwVersion => o.(version := ParseU64(operand))
    case KwExpect => o.(version := ParseU64(operand))
    case KwLimit => o.(limit := ParseU64(operand))
    case KwFrom => o.(from := ParseU64(operand))
    case KwMaxVersions => o.(maxVersions := ParseU64(operand))
    case KwRetention => o.(retention := ParseU64(operand))
    case _ => o
  }

  lemma ApplySets(g: Grammar, it: Item, o: Options, codec: JsonCodec)
    requires it.Pair? && (Strict(g) ==> Good(it, codec))
    ensures Apply(g, KeywordOf(it.word), it.operand, o, codec)
            == Ok(SetTo(KeywordOf(it.word), it.operand, o, codec))
  {
    hide KeywordOf, ParseU64, Strict;
  }

  lemma SetExpected(g: Grammar, items: seq<Item>, it: Item, codec: JsonCodec)
    requires it.Pair? && Fits(g, it)
    ensures SetTo(KeywordOf(it.word), it.operand, Expected(g, items, codec), codec) == Expected(g, items + [it], codec)
  {
    hide KeywordText, KeywordOf, IsWord, ParseU64, LastOperand, HasLone, NamesOf, RoleOf, Strict;
    WordsOf(g, it);
    LastAfterAny(items, it);
    LoneStays(items, it, KeywordText(KwMeta));
    NamesAfter(items, it);
  }

  /** One more operand changes its own option and no other. */
  lemma PairExpected(g: Grammar, items: seq<Item>, it: Item, codec: JsonCodec)
    requires it.Pair? && Fits(g, it) && (Strict(g) ==> Good(it, codec))
    ensures Apply(g, KeywordOf(it.word), it.operand, Expected(g, items, codec), codec)
            == Ok(Expected(g, items + [it], codec))
  {
    hide KeywordOf, Apply, Expected, Fits, Good, SetTo;
    ApplySets(g, it, Expected(g, items, codec), codec);
    SetExpected(g, items, it, codec);
  }

  /** No command takes two keywords that share an option. */
  lemma WordsOf(g: Grammar, it: Item)
    requires it.Pair? && Fits(g, it)
    ensures var k := KeywordOf(it.word);
            && k != KwNone && k != KwEvents
            && (k.KwVersion? || k.KwExpect? ==> k == VersionWord(g)) && (k.KwMeta? || k.KwSchema? ==> k == JsonWord(g))
  {
    hide KeywordOf;
  }

  lemma LastAfter(items: seq<Item>, it: Item, k: Keyword)
    requires k != KwNone
    ensures LastOperand(items + [it], KeywordText(k))
            == if it.Pair? && KeywordOf(it.word) == k then Some(it.operand) else LastOperand(items, KeywordText(k))
  {
    hide KeywordText, KeywordOf, IsWord;
    assert (items + [it])[..|items|] == items;
    KeywordExactly(it.word, k);
  }

  /** The operand last written for a keyword, after one more item. */
  predicate IsLastAfter(items: seq<Item>, it: Item, k: Keyword) {
    LastOperand(items + [it], KeywordText(k))
    == if it.Pair? && KeywordOf(it.word) == k then Some(it.operand) else LastOperand(items, KeywordText(k))
  }

  lemma LastAfterAny(items: seq<Item>, it: Item)
    ensures IsLastAfter(items, it, KwValue) && IsLastAfter(items, it, KwMeta) && IsLastAfter(items, it, KwSchema)
    ensures IsLastAfter(items, it, KwTtl) && IsLastAfter(items, it, KwVersion) && IsLastAfter(items, it, KwExpect)
    ensures IsLastAfter(items, it, KwPrefix) && IsLastAfter(items, it, KwCursor) && IsLastAfter(items, it, KwLimit)
    ensures IsLastAfter(items, it, KwFrom) && IsLastAfter(items, it, KwMaxVersions)
            && IsLastAfter(items, it, KwRetention)
    ensures IsLastAfter(items, it, KwKey)
  {
    hide KeywordText, KeywordOf, LastOperand;
    LastAfter(items, it, KwValue);
    LastAfter(items, it, KwMeta);
    LastAfter(items, it, KwSchema);
    LastAfter(items, it, KwTtl);
    LastAfter(items, it, KwVersion);
    LastAfter(items, it, KwExpect);
    LastAfter(items, it, KwPrefix);
    LastAfter(items, it, KwCursor);
    LastAfter(items, it, KwLimit);
    LastAfter(items, it, KwFrom);
    LastAfter(items, it, KwMaxVersions);
    LastAfter(items, it, KwRetention);
    LastAfter(items, it, KwKey);
  }

  lemma NamesAfter(items: seq<Item>, it: Item)
    ensures NamesOf(items + [it]) == if it.Names? then NamesOf(items) + Uppers(it.names) else NamesOf(items)
  {
    hide Uppers;
    assert (items + [it])[..|items|] == items;
  }

  lemma LoneStays(items: seq<Item>, it: Item, word: Bytes)
    ensures HasLone(items + [it], word) <==> HasLone(items, word) || (it.Lone? && IsWord(it.word, word))
  {
    hide IsWord;
    var more := items + [it];
    assert more[|items|] == it && forall i :: 0 <= i < |items| ==> more[i] == items[i];
  }

  /** A bad operand is refused by the strict commands. */
  lemma BadIsRefused(g: Grammar, it: Item, o: Options, codec: JsonCodec)
    requires it.Pair? && Fits(g, it) && Strict(g) && !Good(it, codec)
    ensures Apply(g, KeywordOf(it.word), it.operand, o, codec).Err?
  {
    hide KeywordOf, ParseU64;
  }

  lemma LoneExpected(g: Grammar, items: seq<Item>, it: Item, codec: JsonCodec)
    requires it.Lone? && Fits(g, it)
    ensures Expected(g, items + [it], codec)
            == (var o := Expected(g, items, codec);
                if RoleOf(g, KeywordOf(it.word)).IsFlag? then o.(flag := true) else o)
  {
    hide KeywordText, KeywordOf, IsWord, ParseU64, LastOperand, HasLone, NamesOf;
    LastAfterAny(items, it);
    KeywordExactly(it.word, KwMeta);
    LoneStays(items, it, KeywordText(KwMeta));
    NamesAfter(items, it);
  }

  lemma NamesExpected(g: Grammar, items: seq<Item>, it: Item, codec: JsonCodec)
    requires it.Names? && Fits(g, it)
    ensures Expected(g, items + [it], codec)
            == (var o := Expected(g, items, codec); o.(events := o.events + Uppers(it.names)))
  {
    hide KeywordText, KeywordOf, IsWord, ParseU64, LastOperand, HasLone, NamesOf;
    LastAfterAny(items, it);
    LoneStays(items, it, KeywordText(KwMeta));
    NamesAfter(items, it);
  }

  /** What is written next, if anything, is the keyword that ends a list of names. */
  predicate KeyOrEnd(args: seq<Bytes>, p: nat) {
    p >= |args| || KeywordOf(args[p]).KwKey?
  }

  lemma {:induction false} NamesRunOn(args: seq<Bytes>, p: nat, names: seq<Bytes>)
    requires p + |names| <= |args| && args[p..p + |names|] == names && NoKey(names) && KeyOrEnd(args, p + |names|)
    ensures EventsEnd(args, p) == p + |names|
    decreases |names|
  {
    hide KeywordOf;
    if names != [] {
      assert args[p] == names[0] && args[p + 1..p + |names|] == names[1..];
      NamesRunOn(args, p + 1, names[1..]);
    }
  }

  /** Reading goes on behind one item with that item's effect. */
  lemma ItemIsRead(g: Grammar, items: seq<Item>, it: Item, args: seq<Bytes>, p: nat, codec: JsonCodec)
    requires Fits(g, it) && p + |Spelled(it)| <= |args| && args[p..p + |Spelled(it)|] == Spelled(it)
    requires it.Names? ==> KeyOrEnd(args, p + |Spelled(it)|)
    ensures var r := ReadOptions(g, args, p, Expected(g, items, codec), codec);
            if Strict(g) && !Good(it, codec) then r.Err?
            else r == ReadOptions(g, args, p + |Spelled(it)|, Expected(g, items + [it], codec), codec)
  {
    hide KeywordOf, Expected, Apply, Good, RoleOf, Uppers;
    assert args[p..p + |Spelled(it)|][0] == args[p];
    match it
    case Lone(_) =>
      LoneExpected(g, items, it, codec);
      LoneIsGood(it, codec);
    case Pair(_, operand) =>
      assert args[p..p + 2][1] == args[p + 1];
      if Strict(g) && !Good(it, codec) {
        BadIsRefused(g, it, Expected(g, items, codec), codec);
      } else {
        PairExpected(g, items, it, codec);
      }
    case Names(_, names) =>
      NamesExpected(g, items, it, codec);
      LoneIsGood(it, codec);
      assert args[p..p + |Spelled(it)|][1..] == args[p + 1..p + 1 + |names|];
      NamesRunOn(args, p + 1, names);
  }

  lemma LoneIsGood(it: Item, codec: JsonCodec)
    ensures !it.Pair? ==> Good(it, codec)
  {
  }

  /** Reading goes on behind any fitting items with what they come to. */
  lemma {:induction false} ItemsAreRead(g: Grammar, items: seq<Item>, args: seq<Bytes>, start: nat, codec: JsonCodec)
    requires FitAll(g, items)
    requires start + |SpelledAll(items)| <= |args| && args[start..start + |SpelledAll(items)|] == SpelledAll(items)
    requires items != [] && items[|items| - 1].Names? ==> KeyOrEnd(args, start + |SpelledAll(items)|)
    ensures var r := ReadOptions(g, args, start, NO_OPTIONS, codec);
            if Strict(g) && !AllGood(items, codec) then r.Err?
            else r == ReadOptions(g, args, start + |SpelledAll(items)|, Expected(g, items, codec), codec)
    decreases |items|
  {
    hide ReadOptions, Expected, Fits, Good, Spelled, KeyOrEnd, SpelledAll, FitAll, AllGood;
    if items == [] {
      NothingExpected(g, codec);
      NothingFits(g);
      assert AllGood(items, codec) by {
        NothingIsBad(codec);
      }
    } else {
      var init, it := items[..|items| - 1], items[|items| - 1];
      assert items == init + [it];
      SpelledMore(init, it);
      Slices(args, start, SpelledAll(init), Spelled(it));
      var p := start + |SpelledAll(init)|;
      LastFits(g, init, it);
      if init != [] && init[|init| - 1].Names? {
        NextIsKey(g, init[|init| - 1], it, args, p);
      }
      ItemsAreRead(g, init, args, start, codec);
      ItemIsRead(g, init, it, args, p, codec);
      GoodMore(init, it, codec);
    }
  }

  lemma Slices(args: seq<Bytes>, start: nat, a: seq<Bytes>, b: seq<Bytes>)
    requires start + |a + b| <= |args| && args[start..start + |a + b|] == a + b
    ensures args[start..start + |a|] == a && args[start + |a|..start + |a| + |b|] == b
  {
    assert (a + b)[..|a|] == a && (a + b)[|a|..] == b;
    assert args[start..start + |a + b|][..|a|] == args[start..start + |a|];
    assert args[start..start + |a + b|][|a|..] == args[start + |a|..start + |a| + |b|];
  }

  lemma NothingIsBad(codec: JsonCodec)
    ensures AllGood([], codec)
  {
  }

  lemma GoodMore(items: seq<Item>, it: Item, codec: JsonCodec)
    ensures AllGood(items + [it], codec) <==> AllGood(items, codec) && Good(it, codec)
  {
    hide Good;
    var more := items + [it];
    assert more[|items|] == it && forall i :: 0 <= i < |items| ==> more[i] == items[i];
  }

  /** What fits, fits without its last item. */
  lemma LastFits(g: Grammar, items: seq<Item>, it: Item)
    requires FitAll(g, items + [it])
    ensures FitAll(g, items) && Fits(g, it)
    ensures items != [] && items[|items| - 1].Names? ==> it.Pair? && Fits(g, items[|items| - 1])
  {
    hide Fits;
    var more := items + [it];
    assert more[|items|] == it && forall i :: 0 <= i < |items| ==> more[i] == items[i];
  }

  /** The operand that follows names is that of KEY. */
  lemma NextIsKey(g: Grammar, names: Item, it: Item, args: seq<Bytes>, p: nat)
    requires names.Names? && Fits(g, names) && it.Pair? && Fits(g, it)
    requires p + |Spelled(it)| <= |args| && args[p..p + |Spelled(it)|] == Spelled(it)
    ensures KeyOrEnd(args, p)
  {
    hide KeywordOf;
    assert args[p] == args[p..p + |Spelled(it)|][0];
  }

  // ---- Both directions ----

  /** A keyword at the end without its operand. */
  predicate Dangling(g: Grammar, tail: seq<Bytes>) {
    tail == [] || (|tail| == 1 && RoleOf(g, KeywordOf(tail[0])).TakesOperand?)
  }

  /** What a whole option list is read as. */
  lemma ListIsRead(g: Grammar, items: seq<Item>, tail: seq<Bytes>, args: seq<Bytes>, start: nat, codec: JsonCodec)
    requires FitAll(g, items) && Dangling(g, tail) && start <= |args| && args[start..] == SpelledAll(items) + tail
    ensures var r := ReadOptions(g, args, start, NO_OPTIONS, codec);
            if Strict(g) && !(AllGood(items, codec) && tail == []) then r.Err?
            else if tail == [] then r == Ok(Expected(g, items, codec))
            else r == Ok(Cleared(KeywordOf(tail[0]), Expected(g, items, codec)))
  {
    hide Expected, KeywordOf, FitAll, AllGood, Cleared, SpelledAll;
    var end := start + |SpelledAll(items)|;
    assert args[start..][..|SpelledAll(items)|] == args[start..end];
    assert args[start..][|SpelledAll(items)|..] == args[end..];
    if tail != [] {
      assert args[end] == args[end..][0];
      if items != [] && items[|items| - 1].Names? {
        DanglingIsKey(g, items, tail);
      }
    }
    ItemsAreRead(g, items, args, start, codec);
  }

  lemma DanglingIsKey(g: Grammar, items: seq<Item>, tail: seq<Bytes>)
    requires FitAll(g, items) && items != [] && items[|items| - 1].Names? && Dangling(g, tail) && tail != []
    ensures KeywordOf(tail[0]).KwKey?
  {
    hide KeywordOf;
    assert Fits(g, items[|items| - 1]);
  }

  /** Every option list a command accepts is such items, and with the lenient commands perhaps a keyword at the end. */
  lemma ReadIsItems(g: Grammar, args: seq<Bytes>, start: nat, codec: JsonCodec)
      returns (items: seq<Item>, tail: seq<Bytes>)
    requires start <= |args| && (Strict(g) ==> ReadOptions(g, args, start, NO_OPTIONS, codec).Ok?)
    ensures FitAll(g, items) && Dangling(g, tail) && args[start..] == SpelledAll(items) + tail
    ensures Strict(g) ==> tail == []
  {
    hide KeywordOf, RoleOf, FitAll, KeyOrEnd, Spelled, SpelledAll, ReadOptions, Fits, GoesOn;
    items, tail := [], [];
    NothingFits(g);
    var p := start;
    while p < |args|
      invariant start <= p <= |args| && FitAll(g, items) && args[start..p] == SpelledAll(items)
      invariant items != [] && items[|items| - 1].Names? ==> KeyOrEnd(args, p)
      decreases |args| - p
    {
      StrictGoesOn(g, items, args, start, p, codec);
      var it := ItemAt(g, args, p);
      if it.None? {
        tail := [args[p]];
        assert args[start..] == args[start..p] + tail;
        return;
      }
      var q := p + |Spelled(it.value)|;
      FitsMore(g, items, it.value, args, p);
      SpelledMore(items, it.value);
      assert args[start..q] == args[start..p] + args[p..q];
      items, p := items + [it.value], q;
    }
    assert args[start..p] == args[start..] && args[start..] + [] == args[start..];
  }

  lemma NothingFits(g: Grammar)
    ensures FitAll(g, []) && SpelledAll([]) == []
  {
  }

  lemma SpelledMore(items: seq<Item>, it: Item)
    ensures SpelledAll(items + [it]) == SpelledAll(items) + Spelled(it)
  {
    assert (items + [it])[..|items|] == items;
  }

  lemma FitsMore(g: Grammar, items: seq<Item>, it: Item, args: seq<Bytes>, p: nat)
    requires FitAll(g, items) && Fits(g, it) && p < |args| && args[p] == it.word
    requires items != [] && items[|items| - 1].Names? ==> KeyOrEnd(args, p)
    ensures FitAll(g, items + [it])
  {
    hide KeywordOf;
    var more := items + [it];
    assert forall i :: 0 <= i < |items| ==> more[i] == items[i];
    if items != [] && items[|items| - 1].Names? {
      assert Fits(g, items[|items| - 1]);
    }
  }

  /** A strict command that accepts its options knows every word, and has the operands it needs. */
  predicate GoesOn(g: Grammar, args: seq<Bytes>, p: nat) {
    p < |args| && Strict(g) ==>
      var role := RoleOf(g, KeywordOf(args[p]));
      !role.Unknown? && (role.TakesOperand? ==> p + 1 < |args|)
  }

  lemma StrictGoesOn(g: Grammar, items: seq<Item>, args: seq<Bytes>, start: nat, p: nat, codec: JsonCodec)
    requires start <= p < |args| && FitAll(g, items) && args[start..p] == SpelledAll(items)
    requires items != [] && items[|items| - 1].Names? ==> KeyOrEnd(args, p)
    requires Strict(g) ==> ReadOptions(g, args, start, NO_OPTIONS, codec).Ok?
    ensures GoesOn(g, args, p)
  {
    hide SpelledAll, FitAll, KeyOrEnd, Expected, AllGood, ReadOptions, GoesOn;
    ItemsAreRead(g, items, args, start, codec);
    OkGoesOn(g, args, p, Expected(g, items, codec), codec);
  }

  lemma OkGoesOn(g: Grammar, args: seq<Bytes>, p: nat, o: Options, codec: JsonCodec)
    ensures ReadOptions(g, args, p, o, codec).Ok? ==> GoesOn(g, args, p)
    ensures !Strict(g) ==> GoesOn(g, args, p)
  {
    hide KeywordOf, RoleOf, Apply, Uppers, EventsEnd;
  }

  /** The item is what is written at this place. */
  predicate StandsAt(g: Grammar, it: Item, args: seq<Bytes>, p: nat) {
    var q := p + |Spelled(it)|;
    && Fits(g, it) && p < q <= |args| && it.word == args[p] && args[p..q] == Spelled(it)
    && (it.Names? ==> KeyOrEnd(args, q))
  }

  /** The item at a place, or none if a keyword stands there at the end without its operand. */
  lemma ItemAt(g: Grammar, args: seq<Bytes>, p: nat) returns (it: Option<Item>)
    requires p < |args| && GoesOn(g, args, p)
    ensures it.None? ==> !Strict(g) && p + 1 == |args| && RoleOf(g, KeywordOf(args[p])).TakesOperand?
    ensures it.Some? ==> StandsAt(g, it.value, args, p)
  {
    hide KeywordOf, RoleOf, EventsEnd, KeyOrEnd, NoKey, Strict;
    match RoleOf(g, KeywordOf(args[p]))
    case Unknown => it := Some(Lone(args[p]));
    case IsFlag => it := Some(Lone(args[p]));
    case TakesOperand =>
      if p + 1 < |args| {
        it := Some(Pair(args[p], args[p + 1]));
      } else {
        it := None;
      }
    case TakesMany =>
      var end := EventsEnd(args, p + 1);
      EventsAreNames(args, p + 1);
      it := Some(Names(args[p], args[p + 1..end]));
      WordAndNames(args, p, end);
  }

  lemma WordAndNames(args: seq<Bytes>, p: nat, end: nat)
    requires p < end <= |args|
    ensures args[p..end] == [args[p]] + args[p + 1..end]
  {
  }

  lemma {:induction false} EventsAreNames(args: seq<Bytes>, p: nat)
    requires p <= |args|
    ensures NoKey(args[p..EventsEnd(args, p)]) && KeyOrEnd(args, EventsEnd(args, p))
    decreases |args| - p
  {
    hide KeywordOf;
    if p < |args| && !KeywordOf(args[p]).KwKey? {
      EventsAreNames(args, p + 1);
      assert args[p..EventsEnd(args, p)] == [args[p]] + args[p + 1..EventsEnd(args, p)];
    }
  }

  /** Strict commands: an option list comes to `o` exactly when it is fitting items that come to `o`. */
  lemma StrictReadsExactly(g: Grammar, args: seq<Bytes>, start: nat, o: Options, codec: JsonCodec)
    requires Strict(g) && start <= |args|
    ensures ReadOptions(g, args, start, NO_OPTIONS, codec) == Ok(o) <==>
            exists items :: args[start..] == SpelledAll(items) && FitAll(g, items) && AllGood(items, codec)
                            && o == Expected(g, items, codec)
  {
    hide ReadOptions, Expected, SpelledAll, FitAll, AllGood;
    if ReadOptions(g, args, start, NO_OPTIONS, codec) == Ok(o) {
      var items, tail := ReadIsItems(g, args, start, codec);
      assert SpelledAll(items) + [] == SpelledAll(items);
      ListIsRead(g, items, tail, args, start, codec);
    }
    forall items | args[start..] == SpelledAll(items) && FitAll(g, items) && AllGood(items, codec)
                   && o == Expected(g, items, codec)
      ensures ReadOptions(g, args, start, NO_OPTIONS, codec) == Ok(o)
    {
      assert SpelledAll(items) + [] == SpelledAll(items);
      ListIsRead(g, items, [], args, start, codec);
    }
  }

  /** Lenient commands: every option list is fitting items and perhaps a keyword at the end. */
  lemma LenientReadsExactly(g: Grammar, args: seq<Bytes>, start: nat, o: Options, codec: JsonCodec)
    requires !Strict(g) && start <= |args|
    ensures ReadOptions(g, args, start, NO_OPTIONS, codec) == Ok(o) <==>
            exists items, tail :: args[start..] == SpelledAll(items) + tail && FitAll(g, items) && Dangling(g, tail)
                                  && o == Ended(g, items, tail, codec)
  {
    hide ReadOptions, Expected, SpelledAll, FitAll, AllGood, KeywordOf, Cleared;
    var items, tail := ReadIsItems(g, args, start, codec);
    ListIsRead(g, items, tail, args, start, codec);
    forall items, tail | args[start..] == SpelledAll(items) + tail && FitAll(g, items) && Dangling(g, tail)
                         && o == Ended(g, items, tail, codec)
      ensures ReadOptions(g, args, start, NO_OPTIONS, codec) == Ok(o)
    {
      ListIsRead(g, items, tail, args, start, codec);
    }
  }

  /** What items and a keyword at the end come to. */
  function Ended(g: Grammar, items: seq<Item>, tail: seq<Bytes>, codec: JsonCodec): Options {
    var o := Expected(g, items, codec);
    if tail == [] then o else Cleared(KeywordOf(tail[0]), o)
  }

  // ---- What is refused ----

  /** The complaint about what stands at a place, if there is one. */
  function ComplaintAt(g: Grammar, args: seq<Bytes>, p: nat, codec: JsonCodec): Option<Complaint>
    requires p < |args|
  {
    var k := KeywordOf(args[p]);
    var role := RoleOf(g, k);
    if role.Unknown? then Some(UnexpectedArgument(args[p]))
    else if !role.TakesOperand? then None
    else if p + 1 == |args| then Some(MissingOperand(k))
    else if IsNumeric(k) && ParseU64(args[p + 1]).None? then Some(NotANumber(k))
    else if (k.KwMeta? || k.KwSchema?) && codec.parse(args[p + 1]).Err? then
      Some(InvalidJson(k, codec.parse(args[p + 1]).error))
    else None
  }

  /** The first thing a strict command cannot take decides what it is told, whatever follows. */
  lemma FirstOffenceIsTold(g: Grammar, items: seq<Item>, args: seq<Bytes>, start: nat, p: nat, codec: JsonCodec)
    requires Strict(g) && FitAll(g, items) && AllGood(items, codec)
    requires start <= p < |args| && args[start..p] == SpelledAll(items)
    requires ComplaintAt(g, args, p, codec).Some?
    ensures ReadOptions(g, args, start, NO_OPTIONS, codec) == Err(ComplaintAt(g, args, p, codec).value)
  {
    hide KeywordOf, Expected, SpelledAll, AllGood, ParseU64;
    if items != [] {
      assert Fits(g, items[|items| - 1]);
    }
    hide FitAll;
    ItemsAreRead(g, items, args, start, codec);
  }
}
