/** The remote store's own pipeline: what it sends and what it makes of the replies. */
module RemotePipeline {
  import opened Text
  import opened Decimal
  import opened Commands
  import opened ClientReader
  import opened ClientCodec
  import opened Requests
  import opened RequestPath
  import opened Replies
  import opened Handlers
  import opened WireErrors
  import opened RemoteDecoding
  import opened Dispatcher
  import opened ExecutionFacts
  import opened Connection
  import opened Verdicts
  import opened Calls
  import opened PipelineCalls
  import opened Remote
  import opened RemoteReads
  import Utf8

  /** A sub-command as the store's interface takes it. */
  datatype PipelineStep =
    | PutStep(ns: Bytes, key: Bytes, value: Bytes, metadata: Option<Json>)
    | GetStep(ns: Bytes, key: Bytes, version: Option<U64>)
    | DeleteStep(ns: Bytes, key: Bytes)
    | PutIfStep(ns: Bytes, key: Bytes, value: Bytes, metadata: Option<Json>, expected: U64)
    | DelIfStep(ns: Bytes, key: Bytes, expected: U64)

  datatype StepResult = PutAt(version: U64) | FoundEntry(entry: Entry) | DeletedAt(version: U64)

  // ---- What is sent ----

  /** The encoder; metadata and the version to get are not passed on. */
  function StepRequest(s: PipelineStep): Request {
    match s
    case PutStep(ns, key, value, _) => AskPut(ns, key, value)
    case GetStep(ns, key, _) => AskGet(ns, key, None)
    case DeleteStep(ns, key) => AskDelete(ns, key)
    case PutIfStep(ns, key, value, _, expected) => AskPutIf(ns, key, value, None, expected)
    case DelIfStep(ns, key, expected) => AskDelIf(ns, key, expected)
  }

  /** The command the caller means. */
  function StepCommand(s: PipelineStep): Command {
    match s
    case PutStep(ns, key, value, metadata) => Put(ns, key, value, metadata, None)
    case GetStep(ns, key, version) => Get(ns, key, version, false)
    case DeleteStep(ns, key) => Delete(ns, key)
    case PutIfStep(ns, key, value, metadata, expected) => PutIf(ns, key, value, metadata, expected)
    case DelIfStep(ns, key, expected) => DelIf(ns, key, expected)
  }

  /** Keys and values are UTF-8, and neither metadata nor a version to get is given. */
  predicate PlainStep(s: PipelineStep) {
    && Utf8.Valid(s.key)
    && (s.PutStep? || s.PutIfStep? ==> Utf8.Valid(s.value) && s.metadata.None?)
    && (s.GetStep? ==> s.version.None?)
  }

  /** The server is asked for what the caller means exactly then. */
  lemma StepIsSentExactly(s: PipelineStep)
    ensures Meaning(StepRequest(s)) == StepCommand(s) <==> PlainStep(s)
  {
    hide Utf8.Valid, Utf8.Lossy;
    Utf8.LossyExact(s.key);
    if s.PutStep? || s.PutIfStep? {
      Utf8.LossyExact(s.value);
    }
  }

  function StepRequests(steps: seq<PipelineStep>): (qs: seq<Request>)
    ensures |qs| == |steps| && forall i :: 0 <= i < |steps| ==> qs[i] == StepRequest(steps[i])
  {
    seq(|steps|, i requires 0 <= i < |steps| => StepRequest(steps[i]))
  }

  // ---- What is made of the replies ----

  /** The decoder; whatever is missing, as in an error reply, is taken for nothing or zero. */
  function StepDecoded(s: PipelineStep, r: Response, defaultMeta: Json): StepResult {
    var version := AsU64(OrElse(GetInt(r, "version"), 0));
    if s.PutStep? || s.PutIfStep? then PutAt(version)
    else if s.GetStep? then
      FoundEntry(Entry(OrElse(GetString(r, "key"), []), OrElse(GetString(r, "value"), []), version, defaultMeta))
    else DeletedAt(version)
  }

  function StepsDecoded(steps: seq<PipelineStep>, rs: seq<Response>, defaultMeta: Json): (results: seq<StepResult>)
    ensures |results| == (if |steps| < |rs| then |steps| else |rs|)
    ensures forall i :: 0 <= i < |results| ==> results[i] == StepDecoded(steps[i], rs[i], defaultMeta)
  {
    if steps == [] || rs == [] then []
    else [StepDecoded(steps[0], rs[0], defaultMeta)] + StepsDecoded(steps[1..], rs[1..], defaultMeta)
  }

  /** The loop over commands and replies together. */
  method CollectResults(steps: seq<PipelineStep>, rs: seq<Response>, defaultMeta: Json)
      returns (results: seq<StepResult>)
    ensures results == StepsDecoded(steps, rs, defaultMeta)
  {
    hide StepDecoded;
    results := [];
    var i := 0;
    while i < |steps| && i < |rs|
      invariant 0 <= i <= |steps| && i <= |rs| && |results| == i
      invariant forall k :: 0 <= k < i ==> results[k] == StepDecoded(steps[k], rs[k], defaultMeta)
    {
      results := results + [StepDecoded(steps[i], rs[i], defaultMeta)];
      i := i + 1;
    }
  }

  function RunPipeline<S>(g: Gate<S>, l: Link<S>, steps: seq<PipelineStep>, defaultMeta: Json, at: Moment)
    : (Link<S>, Result<seq<StepResult>, StoreError>)
  {
    var (l', result) := PipelineCall(g, l, StepRequests(steps), None, at);
    (l', ResultsOf(steps, result, defaultMeta))
  }

  const ARRAY_EXPECTED: Bytes := "expected array " + "response from PIPELINE"

  function ResultsOf(steps: seq<PipelineStep>, result: PipelineResult, defaultMeta: Json)
      : Result<seq<StepResult>, StoreError>
  {
    match result
    case Responses(items) => Ok(StepsDecoded(steps, items, defaultMeta))
    case Refused(text) => Err(Decoded(text))
    case Unexpected => Err(Misshapen(ARRAY_EXPECTED))
    case Broken(fault) => Err(Unreadable(fault))
  }

  // ---- When the results are the store's ----

  /** What a failed sub-command is reported as. */
  function Blank(s: PipelineStep, defaultMeta: Json): StepResult {
    if s.PutStep? || s.PutIfStep? then PutAt(0)
    else if s.GetStep? then FoundEntry(Entry([], [], 0, defaultMeta))
    else DeletedAt(0)
  }

  /** The write a step asks the store for, as the server understands it. */
  function StepWrite(s: PipelineStep): WriteOp
    requires !s.GetStep?
  {
    match s
    case PutStep(ns, key, value, _) => WPut(ns, Utf8.Lossy(key), Utf8.Lossy(value), None, None)
    case DeleteStep(ns, key) => WDelete(ns, Utf8.Lossy(key))
    case PutIfStep(ns, key, value, _, expected) => WPutIf(ns, Utf8.Lossy(key), Utf8.Lossy(value), None, expected)
    case DelIfStep(ns, key, expected) => WDelIf(ns, Utf8.Lossy(key), expected)
  }

  /**
    The result tells what the store did in a given state: the version it wrote, or the entry it has with its
    bytes made UTF-8.
   */
  predicate IsStores<S>(env: Env<S>, s: PipelineStep, store: S, defaultMeta: Json, r: StepResult) {
    if s.GetStep? then
      match env.backend.get(store, s.ns, Utf8.Lossy(s.key), None)
      case Ok(e) =>
        SoundEntry(e) ==> r == FoundEntry(Entry(Utf8.Lossy(e.key), Utf8.Lossy(e.value), e.version, defaultMeta))
      case Err(_) => false
    else
      match env.backend.write(store, StepWrite(s)).1
      case Ok(n) => r == if s.PutStep? || s.PutIfStep? then PutAt(n) else DeletedAt(n)
      case Err(_) => false
  }

  lemma FailureIsBlank(s: PipelineStep, e: CommandError, defaultMeta: Json, codec: JsonCodec)
    ensures StepDecoded(s, Image(ToFrame(Failure(e), codec)), defaultMeta) == Blank(s, defaultMeta)
  {
    hide ErrorText;
  }

  /** A successful write comes from a store that reported a number. */
  lemma WriteReply<S>(env: Env<S>, s: PipelineStep, auth: Option<AuthContext>, st: State<S>)
    requires !s.GetStep?
    ensures Meaning(StepRequest(s)) == CommandFor(StepWrite(s))
    ensures var r := Execute(env, Meaning(StepRequest(s)), auth, st).1;
            var op := StepWrite(s);
            if r.Success? then
              env.backend.write(st.store, op).1.Ok?
                  && r.fields == WrittenFields(op, env.backend.write(st.store, op).1.value)
            else r.Failure?
  {
    hide WriteError, RequirementOf, Utf8.Lossy;
    KindOfWrite(StepWrite(s));
    WriteIsRouted(env.backend, st.store, CommandFor(StepWrite(s)));
  }

  lemma GetReply<S>(env: Env<S>, s: PipelineStep, auth: Option<AuthContext>, st: State<S>)
    requires s.GetStep?
    ensures var r := Execute(env, Meaning(StepRequest(s)), auth, st).1;
            if r.Success? then
              var e := env.backend.get(st.store, s.ns, Utf8.Lossy(s.key), None);
              e.Ok? && r.fields == EntryFields(e.value, false)
            else r.Failure?
  {
    hide RequirementOf, Utf8.Lossy, EntryFields;
  }

  lemma WriteIsDecoded(s: PipelineStep, n: U64, defaultMeta: Json, codec: JsonCodec)
    requires !s.GetStep?
    ensures StepDecoded(s, Image(ToFrame(Success(WrittenFields(StepWrite(s), n)), codec)), defaultMeta)
            == if s.PutStep? || s.PutIfStep? then PutAt(n) else DeletedAt(n)
  {
    hide GetField, FieldFrames, ImagePairs, NamesAreText, FitsFields, ValueFrame, Utf8.Lossy;
    var fields := WrittenFields(StepWrite(s), n);
    WrittenFits(StepWrite(s), n, codec);
    assert fields[1] == ("version", VInteger(AsI64(n))) && fields[0].0 == "status";
    FieldAt(fields, 1, codec);
    ImageOfNumber(AsI64(n), codec);
    CastRoundTrip(n, 0);
  }

  lemma EntryIsDecoded(s: PipelineStep, e: Entry, defaultMeta: Json, codec: JsonCodec)
    requires s.GetStep? && SoundEntry(e)
    ensures StepDecoded(s, Image(ToFrame(Success(EntryFields(e, false)), codec)), defaultMeta)
            == FoundEntry(Entry(Utf8.Lossy(e.key), Utf8.Lossy(e.value), e.version, defaultMeta))
  {
    hide GetField, FieldFrames, ImagePairs, NamesAreText, FitsFields, ValueFrame, Utf8.Lossy, EntryFields;
    var fields := EntryFields(e, false);
    EntryFits(e, false, codec);
    EntryShape(e, false);
    FieldAt(fields, 1, codec);
    FieldAt(fields, 2, codec);
    FieldAt(fields, 3, codec);
    ImageOfBytes(e.key, codec);
    ImageOfBytes(e.value, codec);
    ImageOfNumber(AsI64(e.version), codec);
    CastRoundTrip(e.version, 0);
  }

  /** One reply, decoded: the store's own result if it is a success, and nothing or zero if it is an error. */
  lemma StepIsStores<S>(env: Env<S>, s: PipelineStep, auth: Option<AuthContext>, st: State<S>, defaultMeta: Json)
    ensures var reply := Execute(env, Meaning(StepRequest(s)), auth, st).1;
            var r := StepDecoded(s, Image(ToFrame(reply, env.codec)), defaultMeta);
            if reply.Success? then IsStores(env, s, st.store, defaultMeta, r)
            else reply.Failure? && r == Blank(s, defaultMeta)
  {
    hide Execute, StepDecoded, Image, ToFrame, Blank, WrittenFields, EntryFields, Utf8.Lossy, Meaning;
    var reply := Execute(env, Meaning(StepRequest(s)), auth, st).1;
    if s.GetStep? {
      GetReply(env, s, auth, st);
    } else {
      WriteReply(env, s, auth, st);
    }
    if reply.Failure? {
      FailureIsBlank(s, reply.error, defaultMeta, env.codec);
    } else if s.GetStep? {
      var e := env.backend.get(st.store, s.ns, Utf8.Lossy(s.key), None).value;
      if SoundEntry(e) {
        EntryIsDecoded(s, e, defaultMeta, env.codec);
      }
    } else {
      WriteIsDecoded(s, env.backend.write(st.store, StepWrite(s)).1.value, defaultMeta, env.codec);
    }
  }

  /**
    A pipeline of the remote store that gets through, with nothing unread before: one result per step, and
    the i-th is what the store did in the state the first i left if that sub-command succeeded. If it
    failed the caller is not told: the result is the one of version zero.
   */
  lemma PipelineResultsExactly<S>(g: Gate<S>, l: Link<S>, steps: seq<PipelineStep>, defaultMeta: Json, at: Moment,
                                  i: nat)
    requires l.conn.mode.Normal? && l.unread == [] && Fits(StepRequests(steps), None, g.env.codec) && i < |steps|
    requires Reaches(g, l.conn, PipelineMeaning(StepRequests(steps), None), at)
    requires Decodable(ToFrame(Verdict(g, l.conn, PipelineMeaning(StepRequests(steps), None), at), g.env.codec))
    ensures var (l', result) := RunPipeline(g, l, steps, defaultMeta, at);
            var before := StateBefore(g.env, Meanings(StepRequests(steps)), l.conn.auth, l.conn.shared, i);
            var reply := Execute(g.env, Meaning(StepRequest(steps[i])), l.conn.auth, before).1;
            && result.Ok? && |result.value| == |steps| && l'.unread == []
            && if reply.Success? then IsStores(g.env, steps[i], before.store, defaultMeta, result.value[i])
               else reply.Failure? && result.value[i] == Blank(steps[i], defaultMeta)
  {
    hide PipelineCall, Execute, ToFrame, Fits, StateBefore, Decodable, Verdict, Reaches, StepDecoded, IsStores, Image;
    hide Blank, Meaning;
    ResponsesInOrder(g, l, StepRequests(steps), None, at, i);
    var before := StateBefore(g.env, Meanings(StepRequests(steps)), l.conn.auth, l.conn.shared, i);
    StepIsStores(g.env, steps[i], l.conn.auth, before, defaultMeta);
  }

  /** If it does not get through, the caller sees what the text of the refusal is taken for. */
  lemma RefusedPipelineIsSeen<S>(g: Gate<S>, l: Link<S>, steps: seq<PipelineStep>, defaultMeta: Json, at: Moment)
    requires l.conn.mode.Normal? && l.unread == [] && Fits(StepRequests(steps), None, g.env.codec)
    requires !Reaches(g, l.conn, PipelineMeaning(StepRequests(steps), None), at)
    ensures var (l', result) := RunPipeline(g, l, steps, defaultMeta, at);
            && result == Err(Decoded(ErrorText(NotReached(l.conn, at)))) && l'.unread == []
            && l'.conn.shared == l.conn.shared
  {
    hide PipelineCall, Fits, Reaches, Decoded, ErrorText, NotReached;
    RefusalIsReturned(g, l, StepRequests(steps), None, at);
  }
}
