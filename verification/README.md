# ShrouDB protocol stack: model and proofs

ShrouDB is a versioned key-value store spoken to over RESP3. This project models the protocol stack around
its storage engine: the wire codec with the server's and the client's own reader and writer, command
parsing, dispatch with access checks and the idempotency cache, the per-connection state machine with its
token bucket, the remote store, and the export bundle with its replay. To verify the project, run
`dafny verify dfyconfig.toml` with Dafny 4.11.

## How the model is laid out

- `Text`, `Utf8`, `Decimal`: bytes, UTF-8 validity and lossy decoding, decimal printing and parsing, the
  casts between `u64` and `i64`. A text is a byte sequence that is valid UTF-8.
- `Frames`, `ServerReader`, `ServerCodec`, `ServerIO`: frames, the server's reader and writer, as functions
  and as the loops over a cursor and a sink.
- `ClientReader`, `ClientCodec`, `ClientIO`: the client's reader, which has no depth limit, and its writers.
- `Commands`, `CommandParser`, `CommandParserLoops`, `OptionLists`, `CommandLanguage`, `LanguageFacts`, `ParserFacts`: commands,
  error texts, parsing, and the language of commands told by its words.
- `Requests`, `RequestPath`: what the client builds, and that the server understands it.
- `Replies`, `WireErrors`, `PushEvents`, `Subscriptions`, `RemoteDecoding`: the way back.
- `Handlers`, `StoreErrorTexts`, `Dispatcher`, `Idempotency`, `ExecutionFacts`, `Retries`, `Atomicity`, `Isolation`: execution
  over an abstract store.
- `RateLimiter`, `Connection`, `ConnectionFacts`, `Verdicts`, `ConnectionTraffic`, `ConnectionLoop`, `ConnectionIsolation`: one
  connection.
- `Calls`, `Pairing`, `Mispairing`, `Batches`, `PipelineCalls`: calls over a link, that is a connection together with what the
  client has received but not read, and which reply each call gets.
- `Remote`, `RemoteReads`, `RemoteNamespaces`, `RemotePipeline`, `RemoteChain`: the remote store, end to end, and servers stacked as stores.
- `Bundle`, `Replay`, `Engine`, `ExportImport`, `Rekey`: export, import and offline rekeying.

Code that works by changing things step by step is a method or a class proved against a specification
function; the theorems are about those functions. The store, the access check, the token validator, token
expiry, JSON, postcard and encryption are parameters; where a round trip through one of them is needed it is
an explicit hypothesis. Clocks are parameters: the dispatcher takes successive readings, a frame arriving on
a connection carries an instant and a wall-clock reading that may fail.

## Where the code and its documents differ

The model follows the code.

- `PROTOCOL.md:626` and `README.md:92` describe pipelines as atomic with rollback;
  `shroudb-protocol/src/dispatch.rs:70-73` executes sub-commands one by one and keeps the effects of those that
  succeed. `ExecutionFacts.PipelineRepliesInOrder` states what happens, `Atomicity.WriteBeforeFailedReadStays` gives a failing
  input, and `Atomicity.AllOrNothingExactly` the exact condition under which the promise holds.
- The comment at `shroudb-server/src/connection.rs:37` says that starting with one token prevents a burst after
  idling. It prevents one at the start only; `RateLimiter.BurstExactly` gives the exact burst after any silence and
  `RateLimiter.TwoAtOnceExactly` says when there is one at all, and by `RateLimiter.BurstAfterIdleSecond` one second is enough for
  the whole limit.
- `shroudb-client/src/lib.rs:420-421` and every method of the client promise the reply to the request made. The server
  writes error texts with their newlines (`shroudb-protocol/src/resp3/serialize.rs:9`) and the client takes one line, so what
  follows is taken for the reply to the next call. `Mispairing.WriteIsToldAConflict` gives a failing input and
  `Pairing.AllPairedExactly` the exact condition.
- `shroudb-client/src/remote_store.rs:590-629` takes a failed sub-command of a pipeline for version zero;
  `RemotePipeline.PipelineResultsExactly` says when the results are the store's.
- `shroudb-client/src/remote_store.rs:168-172` means to tell a missing namespace from a missing key;
  `WireErrors.NamespaceBranchIsUnreachable` shows that it cannot.
- `shroudb-client/src/remote_store.rs:649-660` joins several event names with a bar;
  `PushEvents.FilterSurvivesExactly` gives the exact condition under which the filter arrives.
- `shroudb-client/src/remote_store.rs:346-352` and `388-390` do not look for an error reply, so a failed LIST or VERSIONS
  is reported as a missing field; `RemoteReads.RemoteListIsFaithful` and `RemoteReads.RemoteVersionsIsFaithful` say so.
- `README.md:159` promises the same engine code for embedded and remote use. `Remote` and `RemoteReads` state how
  far a remote store is indistinguishable: keys and values must be UTF-8, metadata is not read back, no
  time to live can be sent.

## Model

| member | source | states |
|---|---|---|
| `Utf8.LossyExact` | shroudb-protocol/src/resp3/parse_command.rs:66-77 | Lossy decoding returns its input if and only if the input is valid UTF-8, so the client's lossy strings and the server's strict ones agree on exactly the valid texts |
| `Utf8.LossyIsValid` | shroudb-client/src/connection.rs:185-296 | Lossy decoding of any bytes is valid UTF-8 |
| `Utf8.ValidExactly` | shroudb-protocol/src/resp3/parse_command.rs:66-77 | Bytes are valid if and only if they are the encoding of some sequence of Unicode scalar values, as section 3 of RFC 3629 defines it |
| `Utf8.BadLenExactly` | shroudb-client/src/connection.rs:185-296 | One replacement stands for exactly the longest beginning of the malformed bytes that could have gone on to be a character, and for one byte if there is none |
| `Utf8.LossyReplaces` | shroudb-client/src/connection.rs:185-296 | After any valid text malformed bytes become U+FFFD and the conversion goes on behind them |
| `Decimal.ParsePrintU64` | shroudb-protocol/src/resp3/parse_command.rs:344-452 | Decimal printing then parsing is the identity on every `u64` |
| `Decimal.ParsePrintI64` | shroudb-protocol/src/resp3/reader.rs:56-62 | Decimal printing then parsing is the identity on every `i64`, sign included |
| `Decimal.CastRoundTrip` | shroudb-protocol/src/handlers/versions.rs:20-37 | The casts `u64 as i64` and back are mutually inverse, also at and above 2^63 |
| `ServerCodec.RoundTripExactly` | shroudb-protocol/src/resp3/reader.rs:19-184 | For every frame and every following bytes: reading the encoding returns the frame and leaves the following bytes if and only if the frame is within depth 8, the bulk and collection limits, and has one-line simple texts |
| `ServerCodec.ReadIsReadable` | shroudb-protocol/src/resp3/reader.rs:7-169 | On every input, any frame returned at any depth is within all limits and has no more nodes than bytes consumed |
| `ServerCodec.ReadThenWriteThenRead` | shroudb-protocol/src/resp3/writer.rs:6-67 | Whatever the reader accepts, writing it and reading it again gives the same frame, whatever follows |
| `ServerCodec.EncodingIsPrefixFree` | shroudb-protocol/src/resp3/writer.rs:6-67 | Two readable frames whose encodings are followed by anything and agree as bytes are equal, and so are the followers: the encoding is injective and prefix-free |
| `ServerCodec.StreamIsRead` | shroudb-protocol/src/resp3/reader.rs:19-24 | Any sequence of readable frames written back to back is recovered in order |
| `ServerCodec.OversizeIsTold` | shroudb-protocol/src/resp3/reader.rs:64-141 | A bulk length above 16,777,216 or a count above 100,000 is refused with that number, at every depth and whatever follows |
| `ServerCodec.UnknownTypeIsTold` | shroudb-protocol/src/resp3/reader.rs:165-167 | A byte that starts no frame is refused with that byte |
| `ServerCodec.DeepIsTold` | shroudb-protocol/src/resp3/reader.rs:25-33 | Nine arrays in one another are refused as too deep, whatever the innermost holds |
| `ServerIO.WriteFrame` | shroudb-protocol/src/resp3/writer.rs:6-67 | The recursive writer with its loops appends exactly the encoding of the frame to what was there |
| `ServerIO.ReadOne` | shroudb-protocol/src/resp3/reader.rs:19-24 | The reader consumes its cursor exactly as the reading function says, with the same frame, end of input or error |
| `ServerIO.ReadAtDepth` | shroudb-protocol/src/resp3/reader.rs:25-169 | The depth-limited recursive reader with its counted loops agrees with the reading function in result and remaining bytes |
| `ServerIO.ReadMany` | shroudb-protocol/src/resp3/reader.rs:83-103 | The array loop, pushing frame by frame, agrees with the reading function in elements, error and remaining bytes |
| `ServerIO.ReadManyPairs` | shroudb-protocol/src/resp3/reader.rs:104-133 | The same for the map loop over key and value |
| `ClientCodec.ReadersAgreeExactly` | shroudb-client/src/connection.rs:185-296 | For every frame a Rust server can hold, of any depth: the client reads its encoding as the structural image of the frame and leaves the following bytes if and only if no simple text in it holds a newline |
| `ClientCodec.ItemsAreTaken` | shroudb-client/src/connection.rs:152-166 | Frames written back to back are received in the same order, whatever follows |
| `ClientCodec.RawRoundTripExactly` | shroudb-client/src/response.rs:189-221 | For every response a Rust client can hold, reading undoes the client's own printer and leaves the following bytes if and only if no error text in it holds a newline |
| `ClientCodec.NullsAreTaken` | shroudb-client/src/connection.rs:214-246 | A null, a bulk string of length -1 and an array of length -1 are all read as null, whatever follows |
| `ClientCodec.ScalarsAreTaken` | shroudb-client/src/connection.rs:258-268 | A double is read as its text, a boolean as its word |
| `ClientIO.ReceiveValue` | shroudb-client/src/connection.rs:185-296 | The client's recursive reader with its loops agrees with the reading function in value, error and remaining bytes |
| `ClientIO.WriteCommand` | shroudb-client/src/connection.rs:168-182 | The argument loop appends exactly the encoding of the array of bulk strings |
| `ClientIO.WritePipeline` | shroudb-client/src/lib.rs:428-484 | The nested loops of the pipeline writer append exactly the encoding of one frame holding verb, optional request id and all sub-commands |
| `ClientIO.WriteRaw` | shroudb-client/src/response.rs:189-221 | The printer appends exactly the encoding of the response's frame |
| `Requests.ClausesAreRead` | shroudb-protocol/src/resp3/parse_command.rs:100-172 | After any fixed arguments, a list of keyword and operand pairs is read as the effect of exactly those clauses in order, whatever the operands spell |
| `CommandParserLoops.ScanOptions` | shroudb-protocol/src/resp3/parse_command.rs:344-400 | The option loops, with their mutable options and index, compute the recursive reading of the options, errors included; what that is is stated by `OptionLists.StrictReadsExactly` and `OptionLists.LenientReadsExactly` |
| `CommandParserLoops.ScanEvents` | shroudb-protocol/src/resp3/parse_command.rs:671-702 | The event loop collects the upper-cased names up to the next keyword and stops there |
| `CommandParserLoops.ParseStrings` | shroudb-protocol/src/resp3/parse_command.rs:34-64 | The flat commands, with their option loops, agree with the parsing function on every list of strings |
| `CommandParserLoops.ParseOne` | shroudb-protocol/src/resp3/parse_command.rs:11-64 | The parser as it runs, loops and recursion included, agrees with the parsing function on every frame |
| `CommandParserLoops.ParseElements` | shroudb-protocol/src/resp3/parse_command.rs:615-667 | The two loops of the pipeline parser agree with the parsing function: options, start of commands, sub-commands or first error |
| `RequestPath.RequestArrives` | shroudb-client/src/remote_store.rs:213-513 | Whole request path: for every single request within the limits, with any bytes following, reading one frame from the client's bytes and parsing it gives exactly the intended command and leaves exactly those bytes, even when arguments spell keywords |
| `RequestPath.PipelineArrives` | shroudb-client/src/lib.rs:428-484 | The same for every non-empty pipeline of such requests with or without a request id |
| `ParserFacts.PipelineParsesExactly` | shroudb-protocol/src/resp3/parse_command.rs:615-667 | A pipeline frame with any number of request ids, in any letter case and kind of text frame, parses if and only if it has sub-commands and every one parses, to their commands in order and the last id; otherwise the error carries the index and text of the first that does not |
| `ParserFacts.ParsedPipelineIsSpelled` | shroudb-protocol/src/resp3/parse_command.rs:615-650 | Every pipeline frame that parses has that shape |
| `ParserFacts.ParsedHasNoEmptyPipeline` | shroudb-protocol/src/resp3/parse_command.rs:615-667 | No parsed command holds an empty pipeline, at any nesting level |
| `OptionLists.StrictReadsExactly` | shroudb-protocol/src/resp3/parse_command.rs:113-287 | The six strict commands read an option list to given options if and only if it spells, in any letter case, keywords they take with operands of the right kind, and each option is the operand last written after its keyword, or its default |
| `OptionLists.LenientReadsExactly` | shroudb-protocol/src/resp3/parse_command.rs:535-702 | The three lenient commands read every option list: other words are passed over, operands of the wrong kind count for nothing, a keyword at the very end clears its option |
| `OptionLists.FirstOffenceIsTold` | shroudb-protocol/src/resp3/parse_command.rs:126-164 | After any good options the first word or operand a strict command cannot take decides the complaint, whatever follows |
| `LanguageFacts.ParsesExactly` | shroudb-protocol/src/resp3/parse_command.rs:34-64 | A list of strings is parsed to a command if and only if it denotes that command by the words of the protocol in any letter case: for every command, verb, fixed arguments, and every field as the operand last written after its own keyword, TTL and the META flag of GET included |
| `ParserFacts.MeansExactly` | shroudb-protocol/src/resp3/parse_command.rs:11-64 | A frame is parsed to a command if and only if it means that command: texts that denote it, or a pipeline's verb, request ids of which the last counts, and frames that mean its sub-commands, at any depth |
| `ParserFacts.TextExactly` | shroudb-protocol/src/resp3/parse_command.rs:66-77 | A frame is a text if and only if it is a bulk string of UTF-8, a simple string, or an integer, which is its decimal form |
| `Replies.FieldIsFound` | shroudb-client/src/response.rs:126-149 | A field looked up by name in the received map is the image of the first field of that name the server put in, or absent |
| `Replies.SuccessIsReceived` | shroudb-protocol/src/resp3/serialize.rs:6-51 | Response map to frame to bytes to client value: the client takes exactly the reply and finds under each name what the server stored there |
| `Replies.ReplyArrives` | shroudb-protocol/src/resp3/serialize.rs:17-51 | A success map with values of every kind and depth arrives as exactly the value the client should hold of it, booleans as words, JSON as text, null as null |
| `Replies.FailureIsReceived` | shroudb-protocol/src/resp3/serialize.rs:6-15 | A one-line error arrives as an error with exactly its display text |
| `Replies.ErrorIsReceived` | shroudb-client/src/connection.rs:185-210 | Whatever its text, an error arrives as an error whose text is the first line, and exactly what follows the first line break stays unread |
| `Replies.NothingLeftExactly` | shroudb-client/src/connection.rs:189-198 | Nothing of an error reply stays unread if and only if its text has no newline |
| `RemoteDecoding.HistorySurvives` | shroudb-client/src/remote_store.rs:365-412 | Handler, serializer, writer, reader and decoder return the same version list in the same order for arbitrary `u64` versions and timestamps |
| `RemoteDecoding.CollectVersions` | shroudb-client/src/remote_store.rs:388-412 | The collecting loop decodes each element, in order |
| `WireErrors.ScanCounts` | shroudb-client/src/remote_store.rs:143-154 | The loop over words with its two mutable locals computes the last well-formed count of each kind |
| `WireErrors.StructuredErrorsSurvive` | shroudb-client/src/remote_store.rs:135-167 | For all numbers and all errors: the line received decodes to a conflict, or to an exceeded cap, with given values if and only if the error is that one with those values |
| `WireErrors.ErrorsAreTakenExactly` | shroudb-client/src/remote_store.rs:157-185 | What the client takes the first line of every command error for: the two structured errors for themselves, any other line for a missing key, a taken or used namespace, a bad cursor or a storage error by the phrase it holds |
| `WireErrors.NamespaceBranchIsUnreachable` | shroudb-client/src/remote_store.rs:168-172 | No error text decodes to a missing namespace: the earlier test for a missing key catches every such text |
| `PushEvents.PushSurvivesExactly` | shroudb-server/src/connection.rs:401-415 | Push frame, writer, client reader and decoder return the identical event if and only if its key is UTF-8 |
| `Subscriptions.Listen` | shroudb-client/src/remote_store.rs:676-692 | The background loop hears exactly the events of a stream of bytes, up to the end of the subscription or of what can be read |
| `Subscriptions.EventsAreHeardExactly` | shroudb-server/src/connection.rs:312-398 | Over a whole subscription, whatever commands come in meanwhile, the loop hears from the bytes written all the events pushed, in order and nothing else, if and only if all their keys are UTF-8 |
| `PushEvents.FilterSurvivesExactly` | shroudb-client/src/remote_store.rs:649-660 | The server's event filter equals the client's if and only if it names at most one event type: more are joined with a bar into one unknown name |
| `PushEvents.NameIsRead` | shroudb-server/src/connection.rs:239-246 | An event name in any letter case is PUT, DELETE, or unknown and dropped |
| `PushEvents.NamesAreRead` | shroudb-server/src/connection.rs:239-246 | A list of event names is read name by name, in order |
| `Idempotency.IdempotencyMap.Get` | shroudb-protocol/src/idempotency.rs:39-47 | The cache lookup finds an entry if and only if it is there and was stored less than 300 seconds ago, to the nanosecond, and otherwise removes it |
| `Idempotency.IdempotencyMap.Insert` | shroudb-protocol/src/idempotency.rs:50-58 | Insertion, tied to the new map |
| `Idempotency.IdempotencyMap.Prune` | shroudb-protocol/src/idempotency.rs:61-64 | The removal loop, reading the clock for each entry, keeps exactly the entries stored less than 300 seconds before they are looked at |
| `Idempotency.FoundExactly` | shroudb-protocol/src/idempotency.rs:39-47 | A lookup finds a reply if and only if the id is there and fewer than 300,000,000,000 nanoseconds have passed since it was stored |
| `Idempotency.LookupMatchesLog` | shroudb-protocol/src/idempotency.rs:39-64 | Under any interleaving of get, insert and prune with a non-decreasing clock, a lookup equals the last inserted frame for the id until 300 seconds after its insertion and nothing afterwards; removals are never observable |
| `Dispatcher.CommandDispatcher.Run` | shroudb-protocol/src/dispatch.rs:55-107 | Recursion, loop and the two separate cache accesses have the specified outcome: store, cache, clock readings and response |
| `Dispatcher.CommandDispatcher.RunKeyed` | shroudb-protocol/src/dispatch.rs:62-82 | A pipeline with a request id: lookup, commands and insertion, with the clock read twice, have the specified outcome |
| `Dispatcher.CommandDispatcher.RunAll` | shroudb-protocol/src/dispatch.rs:70-73 | The loop over sub-commands executes each in the state the previous one left and collects the responses in order |
| `Dispatcher.CommandDispatcher.RunLeaf` | shroudb-protocol/src/dispatch.rs:84-135 | The access check before every handler, and the handler's effect |
| `ExecutionFacts.PipelineRepliesInOrder` | shroudb-protocol/src/dispatch.rs:57-83 | Unless a reply under its id was stored less than 300 seconds ago, a pipeline answers each sub-command, the i-th with the reply of running it in the state left by the first i, and leaves the store that all of them leave |
| `ExecutionFacts.LeafIsGuarded` | shroudb-protocol/src/dispatch.rs:86-135 | A command reaches its handler if and only if the check lets the context read its namespace, write to it or administer, as the command needs; otherwise nothing happens and the text is "not authenticated" without a context and "permission denied: " with the check's reason with one |
| `ExecutionFacts.OnlyAllowedReachHandlers` | shroudb-protocol/src/command.rs:144-194 | Through any nesting of pipelines: every GET, LIST, VERSIONS, NAMESPACE INFO and VALIDATE that reaches a handler runs under a context that may read that namespace, every write under one that may write to it, every administrative command under one that may administer |
| `ExecutionFacts.ReadersKeepStore` | shroudb-protocol/src/command.rs:144-194 | A missing context, or one refused every write and admin requirement, leaves the store unchanged by any command tree |
| `Isolation.NothingIsSeen` | shroudb-protocol/src/dispatch.rs:55-107 | Non-interference, for every store local to namespaces: if no command of a tree that the context may send is on a namespace, then from stores that differ only in that namespace, with the same cached replies, it gives the same reply, leaves the same cached replies and stores that differ only there |
| `Isolation.NoninterferenceExactly` | shroudb-protocol/src/command.rs:144-194 | For a given check and context a tree has that property for all such stores, clocks and states if and only if no command of it that the context may send is on the namespace |
| `Isolation.ShutOutSeesNothing` | shroudb-protocol/src/command.rs:144-194 | A missing context, or one that may neither read nor write a namespace nor administer, sees nothing of it, whatever it sends |
| `Isolation.WriteTellsOfNamespace` | shroudb-protocol/src/command.rs:176-184 | Being refused to read is not enough: a PUT by a context that may write has different replies from two stores that differ only in the namespace |
| `Retries.EntryIsKept` | shroudb-protocol/src/dispatch.rs:62-82 | While a cached reply is younger than 300 seconds no command tree replaces or removes it |
| `Retries.RetriedBodyIsIrrelevant` | shroudb-protocol/src/dispatch.rs:62-69 | While a reply is cached and younger than 300 seconds, two command trees that differ only inside pipelines with that id have the same outcome, at any nesting level |
| `Retries.EntryOutlivesActivity` | shroudb-protocol/src/idempotency.rs:39-64 | An entry outlives any sequence of commands and prunes for 300 seconds |
| `Retries.CompletedPipelineIsCached` | shroudb-protocol/src/dispatch.rs:75-81 | A completed pipeline with an id leaves its reply frame in the cache, also when a nested pipeline used the same id |
| `Retries.RetryRepeatsFirstReply` | shroudb-protocol/src/dispatch.rs:55-83 | After a completed pipeline and any activity, another pipeline with that id changes neither store nor cache and yields the first reply's frame until 300 seconds after that was stored |
| `Retries.ReplyIsNoted` | shroudb-protocol/src/dispatch.rs:62-82 | Every reply to a pipeline with an id, at any level, is noted with its frame, its lookup, and store and cache around it |
| `Retries.EveryRetryRepeats` | shroudb-protocol/src/dispatch.rs:55-83 | In any activity, for two noted replies under one id at any nesting levels: if the second was looked up after the first was final and less than 300 seconds after it was stored, it is the same frame and left store and cache unchanged; first replies inside other pipelines, and ids reused inside themselves, included |
| `Atomicity.AllOrNothingExactly` | PROTOCOL.md:626 | The promise that a pipeline succeeds as a whole or is rolled back: for a given check and context it holds for every store whose failed changes leave it, every clock and every state, if and only if no permitted write or administrative command in the tree stands together with another command that can fail |
| `Atomicity.HarmlessIsAtomic` | shroudb-protocol/src/dispatch.rs:70-73 | The same condition suffices for stores with states of any type |
| `Atomicity.WriteBeforeFailedReadStays` | README.md:92 | A concrete pipeline of a write and a failing read after which the write stays |
| `StoreErrorTexts.WriteErrorIsTold` | shroudb-protocol/src/handlers/delete.rs:6-16 | The text every error of every write is answered with, told by the kind of error: "not found" for DELETE and DELIF of a missing key, "namespace not found: " and the name for every write but PUT, "validation failed: " and the detail for PUTIF, and so on |
| `StoreErrorTexts.GetIsTold` | shroudb-protocol/src/handlers/get.rs:6-34 | GET gives the store's entry, with metadata if and only if asked for, or the text of the error by its kind |
| `StoreErrorTexts.ListIsTold` | shroudb-protocol/src/handlers/list.rs:6-33 | LIST gives the store's page or the text of the error by its kind |
| `StoreErrorTexts.VersionsIsTold` | shroudb-protocol/src/handlers/versions.rs:6-38 | VERSIONS gives the store's history or the text of the error |
| `StoreErrorTexts.LimitsArePassed` | shroudb-protocol/src/dispatch.rs:190-244 | LIST, VERSIONS and NAMESPACE LIST ask the store for the given number, and for 100 if none is given |
| `StoreErrorTexts.ServicesAnswer` | shroudb-protocol/src/dispatch.rs:148-150 | PING and HEALTH are answered with PONG and healthy, without the store |
| `StoreErrorTexts.MisplacedIsTold` | shroudb-protocol/src/dispatch.rs:144-146 | AUTH, SUBSCRIBE and UNSUBSCRIBE that get to the dispatcher do nothing and are answered with their texts |
| `Calls.CallExecutes` | shroudb-server/src/connection.rs:129-306 | A call over a link, that is a connection and the client's unread bytes: the server gives its verdict on exactly the intended command, which reaches the dispatcher if and only if the limiter admits it, it is neither AUTH nor SUBSCRIBE, and the connection has an unexpired context, or needs none; bucket, context, mode and store afterwards in full; the client reads on from where it was, so it gets that verdict if nothing was unread |
| `Pairing.PairedExactly` | shroudb-client/src/connection.rs:129-158 | With nothing unread before, a call gets the image of the verdict on its own request and leaves nothing unread if and only if the client can decode the verdict's frame |
| `Pairing.AllPairedExactly` | shroudb-client/src/connection.rs:129-158 | Over any sequence of calls and of frames that are no commands, other connections acting in between, the client always gets the answer to what it sent if and only if every answer can be decoded, which for an error means a text without newline |
| `Pairing.ExchangeIsPairedExactly` | shroudb-client/src/connection.rs:129-158 | For any frame the server can read, command or not: with nothing unread before, its sender gets the answer to it, whole, if and only if it can decode that |
| `Pairing.BadFrameIsRefused` | shroudb-server/src/connection.rs:117-126 | A frame that is no command, from a client with nothing unread: it gets an error that is the first line of "ERR " and the complaint, the rest stays unread, and the connection is as before but for its log |
| `Pairing.ErrorIsDecodableExactly` | shroudb-protocol/src/resp3/serialize.rs:6-15 | An error's frame can be decoded if and only if its text has no newline |
| `Mispairing.WriteIsToldAConflict` | shroudb-client/src/remote_store.rs:257-286 | The failing input: after a GET on a missing namespace whose name has a line break and then spells a conflict, a conditional write that ran is reported as that conflict, and its own reply is left for the next call |
| `Batches.BatchIsAnsweredInOrder` | shroudb-server/src/connection.rs:87-306 | Any number of requests, with frames that are no commands among them, in one stream of bytes are read back exactly, answered by as many frames, verdicts and complaints in order, and if these can be decoded the client reads as many replies in that order and stops at what follows |
| `Calls.CommandIsAnswered` | shroudb-server/src/connection.rs:117-306 | The same for the bytes of any command, with the bytes written in answer |
| `Remote.SentUnchangedExactly` | shroudb-client/src/remote_store.rs:213-323 | The server is asked for exactly the caller's write if and only if keys, values and prefixes are UTF-8 and there is no time to live |
| `Remote.RemoteWriteRuns` | shroudb-client/src/remote_store.rs:213-323 | A remote write runs on the store behind the server exactly once if it is admitted, cleared, permitted and its metadata accepted; otherwise it is refused and the store is untouched |
| `Remote.RemoteWriteRelays` | shroudb-client/src/remote_store.rs:213-323 | With nothing unread before, the caller sees the number of the write that ran, or what the first line of its error text is taken for, or of the text of its refusal, each text given by the kind of error or refusal; nothing is unread afterwards if and only if no error text with a newline came back |
| `Remote.MissingIsSeenExactly` | shroudb-client/src/remote_store.rs:168 | The caller is told that the key is missing if and only if the first line of the answer says that something was not found; so for DELETE and DELIF of a missing key and for every write but PUT to a missing namespace, whatever the store's own texts |
| `Remote.TurnedAwayIsTold` | shroudb-server/src/connection.rs:129-203 | A command that is not admitted, not cleared or not allowed is answered with the text for the first of these that fails, and one that got to the dispatcher leaves the store |
| `Remote.ClosedConnectionIsTold` | shroudb-client/src/connection.rs:185-192 | A write over a connection the server has closed changes nothing and is reported as a closed connection |
| `Remote.RelayIsExact` | shroudb-client/src/remote_store.rs:157-167 | Success and structured errors pass a server unchanged, and one is reported if and only if the store reported exactly that |
| `RemoteChain.WriteRunsOnce` | shroudb-client/src/remote_store.rs:213-323 | Servers stacked as each other's stores, to any height, with nothing unread on the way: if every one runs the write, it runs exactly once on the data, every server handles exactly one command, the result is the data's seen through the servers, and nothing is unread afterwards if and only if no error text on the way has a newline |
| `RemoteChain.RefusalLeavesData` | shroudb-server/src/connection.rs:129-306 | If any server of the stack refuses, the data are untouched |
| `RemoteChain.ChainIsExact` | shroudb-protocol/src/handlers/put_if.rs:25-42 | Through such a stack with nothing unread the caller sees the data's number, conflict or exceeded cap unchanged, and sees a conflict or an exceeded cap if and only if the data reported exactly that |
| `PipelineCalls.ResponsesInOrder` | shroudb-client/src/lib.rs:474-483 | With nothing unread before, the client's pipeline call returns one response per request, the i-th being the image of the reply to the i-th command in the state left by the first i, and leaves nothing unread |
| `PipelineCalls.RefusalIsReturned` | shroudb-client/src/lib.rs:474-483 | A pipeline call that does not get to the dispatcher returns the text of the refusal, leaves nothing unread, and nothing of it was run |
| `PipelineCalls.RetryReturnsSameResponses` | shroudb-client/src/lib.rs:420-428 | A retried pipeline call, over any link and after any activity, leaves store and cache unchanged until 300 seconds after the first reply was stored, and with nothing unread before returns the same responses |
| `RemotePipeline.StepIsSentExactly` | shroudb-client/src/remote_store.rs:524-577 | The remote store's pipeline asks the server for what the caller means if and only if keys and values are UTF-8 and neither metadata nor a version to get is given |
| `RemotePipeline.CollectResults` | shroudb-client/src/remote_store.rs:589-629 | The loop over commands and replies together decodes each pair |
| `RemotePipeline.PipelineResultsExactly` | shroudb-client/src/remote_store.rs:515-632 | One result per step: what the store did in the state left by the earlier steps if that sub-command succeeded, and version zero if it failed |
| `RemotePipeline.RefusedPipelineIsSeen` | shroudb-client/src/remote_store.rs:515-588 | If the pipeline does not get through, the caller sees what the text of the refusal is taken for |
| `RemoteReads.RemoteGetIsFaithful` | shroudb-client/src/remote_store.rs:231-250 | A remote GET leaves the store; with nothing unread before, if it runs it returns the entry stored under the UTF-8 form of the key, with default metadata, if and only if its bytes are UTF-8, otherwise their lossy form; a missing key and a missing namespace are reported as a missing key and every other failure or refusal as what its text is taken for; nothing is unread afterwards if and only if no error text with a newline came back |
| `RemoteReads.MetadataArrivesExactly` | shroudb-protocol/src/handlers/get.rs:21-33 | An entry's metadata arrives, as JSON text, if and only if it was asked for |
| `RemoteReads.RemoteListIsFaithful` | shroudb-client/src/remote_store.rs:326-363 | A remote LIST leaves the store; with nothing unread before, if it runs it returns the store's page, keys in order and made UTF-8, with its cursor; every failure or refusal is reported as a missing field, whatever it was; the same on what is unread afterwards |
| `RemoteReads.RemoteVersionsIsFaithful` | shroudb-client/src/remote_store.rs:365-412 | A remote VERSIONS leaves the store; with nothing unread before, if it runs it returns exactly the history the store returned; every failure or refusal is reported as a missing field, whatever it was; the same on what is unread afterwards |
| `RemoteNamespaces.RemoteNamesAreFaithful` | shroudb-client/src/remote_store.rs:442-468 | A remote NAMESPACE LIST leaves the store; with nothing unread before, if it runs it returns the store's page, names in order and made UTF-8, with its cursor; every failure or refusal is reported as a missing field |
| `RemoteNamespaces.RemoteInfoIsFaithful` | shroudb-client/src/remote_store.rs:470-479 | A remote NAMESPACE INFO leaves the store; with nothing unread before, if it runs it returns name, key count and creation time as the store has them, for all `u64` values, and every failure or refusal as what its text is taken for |
| `RateLimiter.Limiter.TryAcquire` | shroudb-server/src/connection.rs:44-56 | Refill and spending, tied to the new bucket and the verdict |
| `RateLimiter.RunStaysInRange` | shroudb-server/src/connection.rs:44-56 | Over any calls in time order the tokens stay between zero and the limit |
| `RateLimiter.AdmittedSinceStart` | shroudb-server/src/connection.rs:35-56 | By time T after creation at most 1 + limit * T calls are admitted |
| `RateLimiter.AdmittedInAnyWindow` | shroudb-server/src/connection.rs:35-56 | After any history, a stretch of length D admits at most limit + limit * D calls |
| `RateLimiter.SpacedCallsAreNeverRefused` | shroudb-server/src/connection.rs:35-56 | Calls at least 1/limit apart are never refused |
| `RateLimiter.ZeroAdmitsNothing` | shroudb-server/src/connection.rs:84-85 | A limit of zero admits nothing |
| `RateLimiter.BurstExactly` | shroudb-server/src/connection.rs:35-56 | After any silence, of n simultaneous calls exactly the smaller of n and the whole tokens held by then are admitted |
| `RateLimiter.TwoAtOnceExactly` | shroudb-server/src/connection.rs:35-42 | Two simultaneous calls both pass if and only if the limit is at least two and two tokens have been saved up |
| `RateLimiter.BurstAfterIdleSecond` | shroudb-server/src/connection.rs:35-42 | After one idle second the burst admitted is the whole limit, so the bound on windows is met |
| `ConnectionFacts.ConnectionSafety` | shroudb-server/src/connection.rs:144-235 | With authentication required, in every run: each dispatched command but PING and each subscription follows a successful AUTH that nothing replaced or expired since, whose context was unexpired when checked; a subscription was also permitted |
| `ConnectionFacts.ExpiryNeedsNewAuth` | shroudb-server/src/connection.rs:178-203 | After a detected expiry nothing but PING is dispatched and nothing subscribed to before another successful AUTH |
| `ConnectionFacts.HandlersAreGuarded` | shroudb-server/src/connection.rs:294-295 | Through connection and dispatcher together: a command other than PING reaches a handler only under a context that an AUTH on this connection granted and that was unexpired, and only if the check lets that context read or write the command's namespace or administer, as the command needs |
| `ConnectionIsolation.NoFrameTells` | shroudb-server/src/connection.rs:87-307 | Non-interference of whole connections: if no token gives rights on a namespace, then over servers whose stores differ only in it a client that sends the same is sent exactly the same frames, over any run, whatever it sends and other connections do elsewhere |
| `Verdicts.CommandIsJudged` | shroudb-server/src/connection.rs:129-306 | Any command in normal mode, with writes and flushes failing or not: the answer by the first gate that stops it, and bucket, context, mode and store afterwards in full |
| `Verdicts.BadFrameIsTold` | shroudb-server/src/connection.rs:117-126 | A frame that is no command is answered by exactly one frame, the error "ERR " and the complaint; context, bucket and shared state stay, and the mode stays normal if that can be written |
| `Verdicts.MalformedIsTold` | shroudb-server/src/connection.rs:106-115 | In normal mode bytes that are no frame are answered by exactly one frame, "ERR protocol: " and the fault, and the connection is closed |
| `Verdicts.EndsExactly` | shroudb-server/src/connection.rs:87-398 | A connection in either mode is closed by an input if and only if the client or the server is going, bytes are no frame, what has to be written cannot be, or a context cannot be checked for want of a clock |
| `Verdicts.NewConnection` | shroudb-server/src/connection.rs:75-82 | A new connection has no context if authentication is required, and then of the commands the limiter admits only PING gets to the dispatcher; otherwise it has the anonymous one, and while that has not expired every admitted command but AUTH and SUBSCRIBE does |
| `ConnectionTraffic.FrameIsOneReply` | shroudb-server/src/connection.rs:117-306 | Whatever branch it takes, a frame read in normal mode is answered by exactly one frame: the complaint if it is no command, otherwise the verdict on it; a dispatched command ran in the state seen and the frame is its response |
| `ConnectionTraffic.RunSendsWhatIsDue` | shroudb-server/src/connection.rs:87-398 | Over any run in any mix of modes, with writes failing anywhere, the frames written are exactly those due to the inputs, in order, each given by its text or content: answers, complaints, pushed events, the replies allowed while subscribed and the notice of the end |
| `ConnectionTraffic.RepliesPairWithRequests` | shroudb-server/src/connection.rs:87-398 | In any run what is due to an input is written after all that was due to the inputs before it and before all that is due to those after it |
| `ConnectionTraffic.LogAccountsForStore` | shroudb-server/src/connection.rs:294-306 | A connection left alone changes the store only by its dispatched commands, in order |
| `ConnectionTraffic.StreamingResumesExactly` | shroudb-server/src/connection.rs:312-398 | While subscribed, an input resumes normal mode if and only if it is UNSUBSCRIBE or the end of the subscription |
| `ConnectionTraffic.StreamingIsIsolated` | shroudb-server/src/connection.rs:312-398 | Until then nothing is dispatched, authenticated, subscribed to or throttled, only frames are sent, and the store stays as others leave it |
| `ConnectionTraffic.ThroughputIsBounded` | shroudb-server/src/connection.rs:129-142 | Whatever a client sends, by time T at most 1 + limit * T of its commands have an effect |
| `ConnectionLoop.ClientConnection.HandleConnection` | shroudb-server/src/connection.rs:87-307 | The command loop with its nested subscription loop is a run of the state machine, and the bytes written are the encodings of the frames sent, in order |
| `ConnectionLoop.ClientConnection.HandleSubscription` | shroudb-server/src/connection.rs:312-398 | The subscription loop consumes inputs as the state machine does and returns true exactly when normal mode resumes |
| `ConnectionLoop.ClientConnection.ProcessCommand` | shroudb-server/src/connection.rs:144-306 | AUTH, the pre-authentication gate, expiry, SUBSCRIBE and dispatch in the order of the code, with the new state in full |
| `Bundle.WriteBundle` | shroudb-server/src/main.rs:810-819 | The buffer extended section by section is the bundle layout |
| `Bundle.ReadBundle` | shroudb-server/src/main.rs:852-955 | The backward scan loop and the header checks agree with unpacking, error cases included |
| `Bundle.Scan` | shroudb-server/src/main.rs:936-951 | The scan returns the last accepted offset: all later ones are refused, and nothing is returned only if all are |
| `Bundle.LaterOffsetsRefused` | shroudb-server/src/main.rs:936-951 | Every offset after the true one is refused, because a config byte in the top little-endian position makes the length too large |
| `Bundle.UnpackRecoversExactly` | shroudb-server/src/main.rs:926-955 | For every header, ciphertext and parsable config without control characters, import recovers exactly these sections if and only if the config has 1 to 999,999 bytes |
| `Engine.StorageEngine.ReplayNamespace` | shroudb-server/src/main.rs:982-1031 | The nested replay loops over keys and versions, looking up the next version each time, on an engine with other namespaces, have the specified outcome |
| `Replay.ReplayPreservesHistory` | shroudb-server/src/main.rs:982-1031 | Replaying an export into a fresh namespace gives each key that had versions the same states, active values and metadata, and actors, numbered 1 to n and stamped with the time of the replay, and no other key; numbers are unchanged where the source was contiguous |
| `Replay.UnknownIsSkipped` | shroudb-server/src/main.rs:1019-1024 | Versions in an unknown state count for nothing: no record is written and no number used up |
| `Replay.InsertedExactly` | shroudb-server/src/main.rs:982-1031 | Writing a record keeps a key's versions in order, sets its own and leaves every other |
| `ExportImport.Import` | shroudb-server/src/main.rs:852-1031 | Scan, name test, decryption, decoding and replay on the whole engine have the specified outcome; nothing changes when any of them fails |
| `ExportImport.ExportThenImport` | shroudb-server/src/main.rs:756-819 | Export then import into any engine without that name brings config, creation time and history, and the replay leaves every other namespace as it was; a taken name is refused |
| `Engine.StorageEngine.ReplayAll` | shroudb-server/src/main.rs:587-658 | The three nested loops over namespaces, keys and versions, on one engine, have the specified outcome |
| `Engine.EntriesStayInside` | shroudb-server/src/main.rs:602-657 | Writing one namespace's entries is replaying them into that namespace and touches no other |
| `Rekey.RekeyPreservesHistory` | shroudb-server/src/main.rs:533-658 | Replaying all snapshots into one fresh engine, in any order of namespaces and keys, carries over every namespace with config, creation time and history, and adds none |

## Left out

- The storage engine (log, snapshots, value log, cache, sweeper): not part of this repository; a store is any set of functions on states.
- Pipeline rollback: the code has none.
- Two pipelines with one request id at the same time: lookup and insertion are separate steps; retries are covered once the first reply is final.
- RateLimiter.Limiter.TryAcquire: over real numbers, without the rounding of `f64`.
- ServerIO.ReadOne: whole buffers, without allocation failure for large announced lengths and without the cancellation of a half-read frame by another event.
- ConnectionLoop.ClientConnection.HandleConnection: a frame that cannot be written leaves no bytes; which of several ready inputs is taken first is left to the input sequence.
- ConnectionFacts.ConnectionSafety: for servers that require authentication; without that every connection starts with a platform context.
- Calls.CallExecutes: a reply that is not complete counts as a failed read; waiting for more bytes and the client's timeout are not modelled.
- PipelineCalls.ResponsesInOrder: for replies the client can decode; `ClientCodec.ReadersAgreeExactly` says which those are.
- Subscriptions.Listen: the consumer keeps up and does not go away; the bounded channel between reader and consumer is not modelled.
- RemoteChain.WriteRunsOnce: the server's PUT handler calls `put_with_options`, which the remote store does not define; a PUT through a stack rests on the default of the store interface, taken to be `put` without a time to live.
- Reads through a stack of servers: a read has no state in the store interface of the model, so what it does to the connections below cannot be followed.
- Namespace create, drop, alter and validate through the remote store: their requests are covered by `RequestPath.RequestArrives`; their replies are only checked for an error.
- Isolation.NothingIsSeen: for the same cached replies in both runs; a reply cached under a request id is given to whoever repeats the id, so replies cached for others are part of what a context sees.
- ConnectionIsolation.NoFrameTells: for servers that require authentication; with it not required a connection whose context has expired is not checked when it subscribes.
- OptionLists.FirstOffenceIsTold: the complaint as a value; the wording of the complaints about options is a table in `Commands`.
- The typed results of the plain client (`parse_get_result`, `parse_key_list`, `parse_versions` in the client's `lib.rs`): the same field lookups as the remote store's.
- The engine prefix a client puts before its commands on a Moat connection.
- CONFIG, REKEY and NAMESPACE VALIDATE handlers: abstract functions of the store.
- Replay.ReplayPreservesHistory: an engine applies a record by appending it and making it current; the limit on kept versions, update times and expiry times are not carried.
- Encryption, key derivation, postcard and JSON internals: functions with round-trip hypotheses.
- TLS, sockets, timeouts, shutdown draining, metrics, telemetry, webhooks, configuration reload, the command line tools and packaging.
