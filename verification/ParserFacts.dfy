/** What a successful or failed parse says about the input. */
module ParserFacts {
  import opened Text
  import opened Decimal
  import opened Frames
  import opened Commands
  import opened CommandParser
  import opened OptionLists
  import opened CommandLanguage
  import opened LanguageFacts
  import Utf8

  // ---- Pipelines ----

  predicate Parses(f: Frame, codec: JsonCodec) {
    ParseCommand(f, codec).Ok?
  }

  /** The position of the first element from `i` on that is not a command. */
  function FirstBad(items: seq<Frame>, i: nat, codec: JsonCodec): (k: nat)
    requires i <= |items|
    ensures i <= k <= |items|
    ensures forall j :: i <= j < k ==> Parses(items[j], codec)
    ensures k < |items| ==> !Parses(items[k], codec)
    decreases |items| - i
  {
    if i == |items| || !Parses(items[i], codec) then i else FirstBad(items, i + 1, codec)
  }

  /**
    A pipeline's sub-commands parse exactly when each of them does, in order; otherwise the error
    carries the index and the text of the first that does not.
   */
  lemma {:induction false} SubCommandsDecide(items: seq<Frame>, start: nat, i: nat, codec: JsonCodec)
    requires start <= i <= |items|
    ensures var r := ParseAll(items, start, i, codec);
            var k := FirstBad(items, i, codec);
            if k == |items| then
              r.Ok? && forall j :: i <= j < |items| ==> Ok(r.value[j - i]) == ParseCommand(items[j], codec)
            else
              r == Err(PipelineAborted(k - start, ErrorText(ParseCommand(items[k], codec).error)))
    decreases |items| - i
  {
    hide ParseCommand, ErrorText;
    if i < |items| && Parses(items[i], codec) {
      SubCommandsDecide(items, start, i + 1, codec);
    }
  }

  /** No parsed command holds an empty pipeline, at any level. */
  predicate NoEmptyPipeline(c: Command) {
    c.Pipeline? ==> c.commands != [] && forall i :: 0 <= i < |c.commands| ==> NoEmptyPipeline(c.commands[i])
  }

  lemma FlatIsNotPipeline(strings: seq<Bytes>, codec: JsonCodec)
    requires strings != []
    ensures ParseArgs(strings, codec).Ok? ==> !ParseArgs(strings, codec).value.Pipeline?
  {
    hide VerbOf, ReadOptions, SubOf, KeywordOf, Upper;
  }

  lemma {:induction false} ParsedHasNoEmptyPipeline(f: Frame, codec: JsonCodec)
    ensures ParseCommand(f, codec).Ok? ==> NoEmptyPipeline(ParseCommand(f, codec).value)
    decreases f
  {
    hide VerbOf, ParseArgs, FrameTexts, FrameText, PipelineOptions, ErrorText;
    if f.Array? && f.items != [] && ParseCommand(f, codec).Ok? {
      var verb := FrameText(f.items[0]).value;
      if VerbOf(verb).VPipeline? {
        assert ParsePipeline(f.items, codec).Ok?;
        var start := PipelineOptions(f.items, 1, None).value.0;
        SubCommandsHaveNoEmptyPipeline(f.items, start, start, codec);
      } else {
        FlatIsNotPipeline(FrameTexts(f.items).value, codec);
      }
    }
  }

  lemma {:induction false} SubCommandsHaveNoEmptyPipeline(items: seq<Frame>, start: nat, i: nat, codec: JsonCodec)
    requires start <= i <= |items|
    ensures var r := ParseAll(items, start, i, codec);
            r.Ok? ==> forall j :: 0 <= j < |r.value| ==> NoEmptyPipeline(r.value[j])
    decreases items, |items| - i
  {
    hide ParseCommand, ErrorText;
    if i < |items| {
      ParsedHasNoEmptyPipeline(items[i], codec);
      SubCommandsHaveNoEmptyPipeline(items, start, i + 1, codec);
    }
  }

  // ---- Whole pipeline frames ----

  /** The frame spells the verb of a pipeline. */
  predicate IsPipelineVerb(f: Frame) {
    FrameText(f).Ok? && IsWord(FrameText(f).value, "PIPELINE")
  }

  /** The frames spell request ids, each after its keyword, in any letter case and any kind of text frame. */
  predicate SpellsIds(frames: seq<Frame>, ids: seq<Bytes>)
    decreases |ids|
  {
    if ids == [] then frames == []
    else
      && |frames| >= 2 && IsIdKeyword(frames[0]) && FrameText(frames[1]) == Ok(ids[0])
      && SpellsIds(frames[2..], ids[1..])
  }

  predicate IsIdKeyword(f: Frame) {
    FrameText(f).Ok? && IsWord(FrameText(f).value, "REQUEST_ID")
  }

  lemma IdWord(f: Frame)
    ensures IsIdKeyword(f) <==> FrameText(f).Ok? && Upper(FrameText(f).value) == "REQUEST_ID"
  {
    hide Upper, IsWord, FrameText;
    if FrameText(f).Ok? {
      WordExactly(FrameText(f).value, "REQUEST_ID");
    }
  }

  /** The last of the ids counts. */
  function LastId(ids: seq<Bytes>, default: Option<Bytes>): Option<Bytes> {
    if ids == [] then default else Some(ids[|ids| - 1])
  }

  lemma {:induction false} IdsAreRead(items: seq<Frame>, i: nat, opts: seq<Frame>, ids: seq<Bytes>, id: Option<Bytes>)
    requires SpellsIds(opts, ids) && i <= |items| && opts <= items[i..]
    requires i + |opts| == |items| || items[i + |opts|].Array?
    ensures PipelineOptions(items, i, id) == Ok((i + |opts|, LastId(ids, id)))
    decreases |ids|
  {
    hide Upper, IsWord;
    if ids != [] {
      IdWord(opts[0]);
      assert items[i] == opts[0] && items[i + 1] == opts[1];
      assert items[i + 2..] == items[i..][2..];
      IdsAreRead(items, i + 2, opts[2..], ids[1..], Some(ids[0]));
    }
  }

  lemma {:induction false} ReadAreIds(items: seq<Frame>, i: nat, id: Option<Bytes>) returns (ids: seq<Bytes>)
    requires i <= |items| && PipelineOptions(items, i, id).Ok?
    ensures var start := PipelineOptions(items, i, id).value.0;
            SpellsIds(items[i..start], ids) && (start == |items| || items[start].Array?)
    decreases |items| - i
  {
    hide Upper, IsWord;
    if i == |items| || items[i].Array? {
      ids := [];
    } else {
      IdWord(items[i]);
      var value := FrameText(items[i + 1]).value;
      var others := ReadAreIds(items, i + 2, Some(value));
      ids := [value] + others;
      var start := PipelineOptions(items, i, id).value.0;
      assert items[i..start][2..] == items[i + 2..start] && ids[1..] == others;
    }
  }

  /**
    A pipeline frame: the verb, any request ids, then sub-commands of which the first is an array. It parses
    exactly when there are sub-commands and every one parses, to their commands in order and the last id;
    otherwise nothing of it parses, and the error carries the index and the text of the first that does not.
   */
  lemma PipelineParsesExactly(verb: Frame, opts: seq<Frame>, ids: seq<Bytes>, subs: seq<Frame>, codec: JsonCodec)
    requires IsPipelineVerb(verb) && SpellsIds(opts, ids) && (subs != [] ==> subs[0].Array?)
    ensures var r := ParseCommand(Array([verb] + opts + subs), codec);
            var k := FirstBad(subs, 0, codec);
            if subs == [] then r == Err(BadArg(EmptyPipeline))
            else if k == |subs| then
              && r.Ok? && r.value.Pipeline? && r.value.requestId == LastId(ids, None) && |r.value.commands| == |subs|
              && forall j :: 0 <= j < |subs| ==> Ok(r.value.commands[j]) == ParseCommand(subs[j], codec)
            else
              r == Err(PipelineAborted(k, ErrorText(ParseCommand(subs[k], codec).error)))
  {
    hide VerbOf, PipelineOptions, ParseAll, ParsePipeline, ErrorText, FirstBad, ParseCommand, FrameText, LastId;
    hide SpellsIds;
    var head, id := [verb] + opts, LastId(ids, None);
    var items := head + subs;
    assert items[1..] == opts + subs && |head| == 1 + |opts|;
    assert subs != [] ==> items[|head|] == subs[0];
    IdsAreRead(items, 1, opts, ids, None);
    PipelineFrame(items, codec);
    if subs == [] {
      EmptyIsRefused(items, id, codec);
    } else {
      PipelineFromParts(items, |head|, id, codec);
      SubCommandsDecide(items, |head|, |head|, codec);
      BadIsShifted(head, subs, 0, codec);
      var k, r := FirstBad(subs, 0, codec), ParseAll(items, |head|, |head|, codec);
      if k == |subs| {
        forall j | 0 <= j < |subs|
          ensures Ok(r.value[j]) == ParseCommand(subs[j], codec)
        {
          assert items[|head| + j] == subs[j];
        }
      } else {
        assert items[|head| + k] == subs[k];
      }
    }
  }

  lemma EmptyIsRefused(items: seq<Frame>, id: Option<Bytes>, codec: JsonCodec)
    requires items != [] && PipelineOptions(items, 1, None) == Ok((|items|, id))
    ensures ParsePipeline(items, codec) == Err(BadArg(EmptyPipeline))
  {
    hide PipelineOptions;
  }

  /** Every pipeline frame that parses has that shape. */
  lemma ParsedPipelineIsSpelled(items: seq<Frame>, codec: JsonCodec) returns (start: nat, ids: seq<Bytes>)
    requires items != [] && IsPipelineVerb(items[0]) && ParseCommand(Array(items), codec).Ok?
    ensures 1 <= start < |items| && SpellsIds(items[1..start], ids) && items[start].Array?
  {
    hide VerbOf, FrameText, SpellsIds, ErrorText;
    PipelineFrame(items, codec);
    ids := ReadAreIds(items, 1, None);
    start := PipelineOptions(items, 1, None).value.0;
    if start == |items| {
      EmptyIsRefused(items, PipelineOptions(items, 1, None).value.1, codec);
    }
  }

  lemma PipelineFromParts(items: seq<Frame>, start: nat, id: Option<Bytes>, codec: JsonCodec)
    requires 1 <= start < |items| && PipelineOptions(items, 1, None) == Ok((start, id))
    ensures ParsePipeline(items, codec) ==
            match ParseAll(items, start, start, codec)
            case Ok(commands) => Ok(Pipeline(commands, id))
            case Err(e) => Err(e)
  {
    hide PipelineOptions, ParseCommand, ErrorText;
  }

  /** The frame of a pipeline goes to the pipeline parser. */
  lemma PipelineFrame(items: seq<Frame>, codec: JsonCodec)
    requires items != [] && IsPipelineVerb(items[0])
    ensures ParseCommand(Array(items), codec) == ParsePipeline(items, codec)
  {
    hide VerbOf, FrameText, ParsePipeline, IsPipelineVerb;
    VerbIsNoPipeline(items[0]);
  }

  lemma {:induction false} BadIsShifted(head: seq<Frame>, subs: seq<Frame>, i: nat, codec: JsonCodec)
    requires i <= |subs|
    ensures FirstBad(head + subs, |head| + i, codec) == |head| + FirstBad(subs, i, codec)
    decreases |subs| - i
  {
    hide Parses;
    if i < |subs| {
      assert (head + subs)[|head| + i] == subs[i];
      BadIsShifted(head, subs, i + 1, codec);
    }
  }

  // ---- Every frame ----

  /** The frame is this text: a string, or an integer in decimal. */
  predicate IsText(f: Frame, t: Bytes) {
    || (f == BulkString(t) && Utf8.Valid(t))
    || f == SimpleString(t)
    || (f.Integer? && t == PrintInt(f.n))
  }

  lemma TextExactly(f: Frame, t: Bytes)
    ensures FrameText(f) == Ok(t) <==> IsText(f, t)
  {
    hide Utf8.Valid, PrintInt;
  }

  lemma {:induction false} TextsExactly(parts: seq<Frame>, texts: seq<Bytes>)
    ensures FrameTexts(parts) == Ok(texts) <==>
            |parts| == |texts| && forall i :: 0 <= i < |parts| ==> IsText(parts[i], texts[i])
    decreases |parts|
  {
    hide IsText, FrameText;
    if parts == [] {
    } else if texts != [] {
      TextExactly(parts[0], texts[0]);
      TextsExactly(parts[1..], texts[1..]);
      assert texts == [texts[0]] + texts[1..];
      if |parts| == |texts| && forall i :: 0 <= i < |parts| ==> IsText(parts[i], texts[i]) {
        assert forall i :: 0 <= i < |parts[1..]| ==> IsText(parts[1..][i], texts[1..][i]);
      }
      if FrameTexts(parts) == Ok(texts) {
        assert FrameTexts(parts[1..]).Ok? && texts[1..] == FrameTexts(parts[1..]).value;
        assert forall i :: 1 <= i < |parts| ==> parts[i] == parts[1..][i - 1] && texts[i] == texts[1..][i - 1];
      }
    }
  }

  /**
    The frame means the command: an array of texts that denote it, or the verb of a pipeline, any number of
    request ids of which the last counts, and frames that mean its sub-commands.
   */
  ghost predicate Means(f: Frame, c: Command, codec: JsonCodec)
    decreases f
  {
    && f.Array? && f.items != []
    && if IsPipelineVerb(f.items[0]) then
         && c.Pipeline?
         && exists start, ids ::
              && HasHead(f.items, start, ids) && c.requestId == LastId(ids, None)
              && |c.commands| == |f.items| - start
              && forall j :: 0 <= j < |c.commands| ==> Means(f.items[start + j], c.commands[j], codec)
       else exists texts ::
              && |texts| == |f.items| && (forall i :: 0 <= i < |texts| ==> IsText(f.items[i], texts[i]))
              && Denotes(texts, c, codec)
  }

  /** After the verb come these request ids, and the sub-commands from `start` on. */
  predicate HasHead(items: seq<Frame>, start: int, ids: seq<Bytes>) {
    1 <= start < |items| && items[start].Array? && SpellsIds(items[1..start], ids)
  }

  lemma FlatMeansExactly(items: seq<Frame>, c: Command, codec: JsonCodec)
    requires items != [] && !IsPipelineVerb(items[0])
    ensures ParseCommand(Array(items), codec) == Ok(c) <==> Means(Array(items), c, codec)
  {
    hide Denotes, ParseCommand, FrameTexts, IsText, IsPipelineVerb;
    if Means(Array(items), c, codec) {
      var texts :| |texts| == |items| && (forall i :: 0 <= i < |texts| ==> IsText(items[i], texts[i]))
                   && Denotes(texts, c, codec);
      TextsAreParsed(items, texts, c, codec);
    }
    if ParseCommand(Array(items), codec) == Ok(c) {
      FlatIsTexts(items, codec);
      var texts := FrameTexts(items).value;
      TextsExactly(items, texts);
      TextsAreParsed(items, texts, c, codec);
    }
  }

  lemma TextsAreParsed(items: seq<Frame>, texts: seq<Bytes>, c: Command, codec: JsonCodec)
    requires items != [] && !IsPipelineVerb(items[0])
    requires |texts| == |items| && forall i :: 0 <= i < |texts| ==> IsText(items[i], texts[i])
    ensures ParseCommand(Array(items), codec) == Ok(c) <==> Denotes(texts, c, codec)
  {
    hide Denotes, ParseCommand, ParseArgs, FrameTexts, IsText, IsPipelineVerb;
    TextsExactly(items, texts);
    FlatIsParsed(items, texts, codec);
    ParsesExactly(texts, c, codec);
  }

  lemma VerbIsNoPipeline(f: Frame)
    ensures IsPipelineVerb(f) <==> FrameText(f).Ok? && VerbOf(FrameText(f).value).VPipeline?
  {
    hide VerbOf, FrameText, IsWord;
    if FrameText(f).Ok? {
      VerbExactly(FrameText(f).value, Pipeline([], None));
    }
  }

  lemma FlatIsTexts(items: seq<Frame>, codec: JsonCodec)
    requires items != [] && !IsPipelineVerb(items[0]) && ParseCommand(Array(items), codec).Ok?
    ensures FrameTexts(items).Ok?
  {
    hide FrameTexts, FrameText, VerbOf, ParseArgs, ParsePipeline, IsPipelineVerb;
    VerbIsNoPipeline(items[0]);
  }

  lemma FlatIsParsed(items: seq<Frame>, texts: seq<Bytes>, codec: JsonCodec)
    requires items != [] && !IsPipelineVerb(items[0]) && FrameTexts(items) == Ok(texts)
    ensures ParseCommand(Array(items), codec) == CommandParser.Refused(ParseArgs(texts, codec))
  {
    hide FrameText, VerbOf, ParseArgs, ParsePipeline, IsPipelineVerb;
    VerbIsNoPipeline(items[0]);
  }

  /** The parser on frames: a frame is parsed to a command exactly when it means that command. */
  lemma {:induction false} MeansExactly(f: Frame, c: Command, codec: JsonCodec)
    ensures ParseCommand(f, codec) == Ok(c) <==> Means(f, c, codec)
    decreases f
  {
    hide ParseCommand, IsPipelineVerb, HasHead, Denotes, IsText, LastId;
    if !f.Array? || f.items == [] {
      OthersAreRefused(f, codec);
    } else if !IsPipelineVerb(f.items[0]) {
      FlatMeansExactly(f.items, c, codec);
    } else {
      if ParseCommand(f, codec) == Ok(c) {
        ParsedIsMeant(f.items, c, codec);
      }
      if Means(f, c, codec) {
        MeantIsParsed(f.items, c, codec);
      }
    }
  }

  lemma OthersAreRefused(f: Frame, codec: JsonCodec)
    requires !f.Array? || f.items == []
    ensures ParseCommand(f, codec).Err?
  {
  }

  lemma {:induction false} ParsedIsMeant(items: seq<Frame>, c: Command, codec: JsonCodec)
    requires items != [] && IsPipelineVerb(items[0]) && ParseCommand(Array(items), codec) == Ok(c)
    ensures Means(Array(items), c, codec)
    decreases items
  {
    hide ParseCommand, IsPipelineVerb, SpellsIds, LastId, ErrorText, Denotes;
    var start, ids := ParsedPipelineIsSpelled(items, codec);
    PipelineIsSplit(items, start, ids, codec);
    forall j | 0 <= j < |c.commands|
      ensures Means(items[start + j], c.commands[j], codec)
    {
      MeansExactly(items[start + j], c.commands[j], codec);
    }
    assert HasHead(items, start, ids);
  }

  lemma {:induction false} MeantIsParsed(items: seq<Frame>, c: Command, codec: JsonCodec)
    requires items != [] && IsPipelineVerb(items[0]) && Means(Array(items), c, codec)
    ensures ParseCommand(Array(items), codec) == Ok(c)
    decreases items
  {
    hide ParseCommand, IsPipelineVerb, SpellsIds, LastId, ErrorText, Denotes;
    var start, ids :| HasHead(items, start, ids) && c.requestId == LastId(ids, None)
                      && |c.commands| == |items| - start
                      && forall j :: 0 <= j < |c.commands| ==> Means(items[start + j], c.commands[j], codec);
    PipelineIsSplit(items, start, ids, codec);
    forall k | start <= k < |items|
      ensures ParseCommand(items[k], codec) == Ok(c.commands[k - start])
    {
      var j := k - start;
      assert Means(items[start + j], c.commands[j], codec);
      MeansExactly(items[start + j], c.commands[j], codec);
    }
    assert ParseCommand(Array(items), codec).value.commands == c.commands;
  }

  /** A pipeline frame parses exactly when its sub-commands do, and then to those. */
  lemma PipelineIsSplit(items: seq<Frame>, start: nat, ids: seq<Bytes>, codec: JsonCodec)
    requires items != [] && IsPipelineVerb(items[0]) && HasHead(items, start, ids)
    ensures var r := ParseCommand(Array(items), codec);
            r.Ok? <==> forall j :: start <= j < |items| ==> ParseCommand(items[j], codec).Ok?
    ensures var r := ParseCommand(Array(items), codec);
            r.Ok? ==>
              && r.value.Pipeline? && r.value.requestId == LastId(ids, None) && |r.value.commands| == |items| - start
              && forall j :: 0 <= j < |items| - start
                  ==> ParseCommand(items[start + j], codec) == Ok(r.value.commands[j])
  {
    hide ParseCommand, IsPipelineVerb, SpellsIds, LastId, ErrorText;
    var opts, subs := items[1..start], items[start..];
    assert items == [items[0]] + opts + subs;
    assert forall j :: 0 <= j < |subs| ==> subs[j] == items[start + j];
    assert forall j :: start <= j < |items| ==> items[j] == subs[j - start];
    PipelineParsesExactly(items[0], opts, ids, subs, codec);
    var k := FirstBad(subs, 0, codec);
    if k < |subs| {
      assert !ParseCommand(items[start + k], codec).Ok?;
    }
  }
}
