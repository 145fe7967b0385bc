# MongoDB activity monitor: a verified model

The monitor watches a MongoDB server from the kernel. An Observer on the node reassembles
socket data into MongoDB wire messages, correlates requests with responses, attributes them
to authenticated users, and batches the resulting events into a durable spool. It posts the
batches to an Outpost, which validates and enriches them, spools them again, and delivers
them to a regional endpoint or to S3.

This project models that path in Dafny and proves what it is relied on for:

* **Decoding.** Fragmentation of the byte stream does not matter; what is retained is
  bounded; a frame cut to its prefix contradicts the whole frame only in listed cases, and
  exactly when is stated for each; the two encodings of a command, and a compressed and an uncompressed frame, decode to the same thing; BSON
  documents, SCRAM user names and DNS names are read back exactly.
* **Correlation and attribution.** Over every run of the event processor: requests are
  conserved and each answered one is reported once, tables stay within their limits, and an
  activity carries a principal if and only if the latest successful authentication on its
  connection credits it.
* **Storage and delivery.** Over every run of the two-hop protocol, with crashes between any
  two file-system calls, no committed batch is lost and nothing is invented; files always
  fit the capacity, are named by their content and are never both pending and quarantined.
* **Batching and export.** Events are conserved by the batcher, every batch flushed passes
  every later check, and object keys identify batches.

## How it is laid out

| module | file | about |
|---|---|---|
| Primitives, Bson, Elements | `Primitives.dfy`, `Bson.dfy`, `Elements.dfy` | bytes, readers, documents as lists of elements |
| Json, BsonTree | `Json.dfy`, `BsonTree.dfy` | BSON to JSON and its round trip |
| Scram, Deletes, Summaries | same names | what is taken from a command document |
| Readings, TreeReadings, PrintedFrames | same names | what that must be, key by key, for documents and for whole frames |
| Wire, SequenceForms | same names | frames, compression, the two forms of a command |
| Refusals | same name | exactly what the readers and the frame decoder accept |
| PrefixAgreement, PrefixFrames, FramePrefixes | same names | cut-off documents, OP_MSG payloads and frames against whole ones |
| PrefixLimits, PrefixReach, CutFrames | same names | what a cut gives exactly, from where on, and inputs on which it differs |
| ErrorKinds, Streams, Capture | same names | reassembly and retention |
| Dns, DnsPackets, DnsPairing | same names | names, messages, and responses with their queries |
| Processor, Attribution, Conservation, CreditedRequests, Overtaken, Logins | same names | the event processor over every run |
| Activities, Signals, Observer | same names | what it reports, field by field, and the processor as an object |
| Spool, SpoolOperations, Provenance | `Spool.dfy`, `DurableSpool.dfy`, `Provenance.dfy` | the spool under crashes |
| Hops, Delivery, HostRuns, DeliveryProgress | same names | the delivery protocol, and the hosts' operations as behaviours of it |
| Schema, Enrichment, Batcher, Validity, ObjectKeys, KeyReading | same names | batches, from the buffer to the object key |

Loops of the source are methods proved equal to a recursive function of their input; the
theorems are about those functions. What the functions themselves compute is stated again
without them, by literal keys, names, codes and bit positions (`Readings`, `PrintedFrames`,
`Refusals`, `Activities`, `Signals`, `Logins`, `KeyReading`, `DnsPackets`). Objects that are
updated in place are classes (`StreamDecoder`, `EventProcessor`, `DurableSpool`) whose methods are proved to take the
steps of the corresponding machine, with the history kept in ghost fields; `HostRuns` takes
the logs of the spool methods to behaviours of the delivery protocol. Text is the
sequence of its UTF-8 bytes. Library functions (UTF-8 validation, the reading of doubles,
the three decompressors, SHA-256, the JSON text of a batch) are arbitrary functions; what is
needed of them is stated as a hypothesis where it is needed. SHA-256 in particular is
assumed free of collisions only on the bodies of a run.

Places where the code gives less than its documentation or a first guess would suggest, each
with an input and the exact condition:

* `docs/HTTP_PUSH_CONTRACT.md` describes how the Outpost treats the statuses of the
  contract. On statuses outside it the two senders differ: the Observer quarantines on 1xx
  and 3xx, the Outpost retries (`Hops.VerdictsCompared`).
* The same document says that a query is present only when the complete command fits the
  prefix. An OP_MSG cut between its body and a document sequence reports the query without
  the sequence (`CutFrames.SequenceCut`); it is the whole query exactly when the sequences
  add nothing (`FramePrefixes.OpMsgSequences`).
* Authentication state belongs to a connection, not to an exchange. If two exchanges overlap
  on one connection, the later name is credited with the success of the earlier exchange
  (`Overtaken.OvertakenExchange`). The request that named a credited principal has been
  answered exactly when it is neither waiting, nor evicted or overwritten, nor sent without
  asking for a response (`CreditedRequests.CreditedAnsweredExactly`), and always on a
  connection whose authentication requests do not overlap (`SequentialCredits`).
* Duplicate BSON keys are last-wins, so a prefix can report a value that the whole document
  overrides (`PrefixLimits.DuplicateKeysDisagree`). Cut between two elements it reports
  exactly the elements up to the first value without bytes (`PrefixLimits.PrefixAtBoundary`),
  so it agrees exactly when the last value among those is the document's last
  (`PrefixLimits.DuplicatesExactly`, for the database).
* A cut OP_REPLY takes `ok` from its flags (`CutFrames.ReplyOkCut`), and a cut OP_QUERY its
  database from the namespace (`CutFrames.QueryDatabaseCut`). They agree with the whole frame
  exactly when the prefix reaches the document's own value or that value is the same
  (`FramePrefixes.ReplyPayload`, `FramePrefixes.QueryPayload`).
* A push that fails loses the messages it had decoded before the failing frame
  (`Streams.MessageLost`). What comes out is exactly what was complete before the failing
  chunk, and which chunk fails is determined (`Streams.FragmentationIndependent`,
  `Streams.FailsOnce`).
* A retained buffer shorter than a frame header need not begin any legal frame
  (`Streams.BeginsNothing`); it does exactly when a legal length with those bytes is within
  the limit (`Streams.UnfinishedBegins`).
* A capacity of the largest 64-bit value is no limit, since sizes are added with saturation
  (`Spool.NoLimitAtTop`); any smaller one bounds the true sum (`Spool.CapacityIsTrue`).

## Model

| member | source | states |
|---|---|---|
| Bson.SkipWindow | crates/mongo-protocol/src/lib.rs:1178-1246 | `skip_value` depends on the value's own bytes only: it accepts the same bytes anywhere, with the same length |
| Bson.ScalarsWindow | crates/mongo-protocol/src/lib.rs:1290-1340 | the boolean and number readers give the same answer wherever an accepted value stands |
| Bson.StringWindow | crates/mongo-protocol/src/lib.rs:1248-1263 | so does the string reader |
| Bson.BinaryWindow | crates/mongo-protocol/src/lib.rs:1265-1275 | so does the binary reader |
| Bson.SkipPrefix | crates/mongo-protocol/src/lib.rs:1178-1246 | `skip_value` is monotone in the buffer: what it finds in a prefix it finds in the whole |
| Bson.ScalarsPrefix | crates/mongo-protocol/src/lib.rs:1290-1340 | the boolean and number readers are monotone in the buffer |
| Bson.StringsPrefix | crates/mongo-protocol/src/lib.rs:1248-1275 | the string and binary readers are monotone in the buffer |
| Bson.CStringPrefix | crates/mongo-protocol/src/lib.rs:1439-1449 | the key reader is monotone in the buffer |
| Elements.ParseSerialize | crates/mongo-protocol/src/lib.rs:832-857 | the walk over a document finds exactly the elements it was serialised from |
| Elements.SerializeParse | crates/mongo-protocol/src/lib.rs:832-857 | every document the walk accepts is the serialised form of the valid elements found, byte for byte |
| Json.BsonContainerToJson | crates/mongo-protocol/src/lib.rs:1039-1069 | the conversion loop computes the recursive conversion; it terminates on every byte string, each nested call being on a shorter slice |
| Json.BsonDocumentSequenceToJson | crates/mongo-protocol/src/lib.rs:1071-1087 | the loop over a document sequence converts each document in turn, and fails as the recursive form does |
| Json.EncodeHexLoop | crates/mongo-protocol/src/lib.rs:1168-1176 | the hex loop writes two digits for each byte |
| Json.JsonWindow | crates/mongo-protocol/src/lib.rs:1089-1166 | converting a value depends on its own bytes only |
| Json.ConvertSerialized | crates/mongo-protocol/src/lib.rs:1039-1069 | converting a document is converting its elements in order, last key winning, first failure reported |
| Json.ConvertedParses | crates/mongo-protocol/src/lib.rs:1039-1069 | whatever converts also parses |
| BsonTree.ValueRoundTrip | crates/mongo-protocol/src/lib.rs:1089-1166 | every encodable value tree, of every supported type and any nesting, converts from its BSON 1.1 encoding to its JSON image and consumes exactly its bytes |
| BsonTree.HexDigits | crates/mongo-protocol/src/lib.rs:1168-1176 | the hex text, digit by digit: two lower-case digits for each byte, the high one first |
| BsonTree.IntegerReads | crates/mongo-protocol/src/lib.rs:1101-1166 | the decimal text of an integer stands for it |
| BsonTree.DocumentRoundTrip | crates/mongo-protocol/src/lib.rs:1031-1069 | the same for whole documents |
| BsonTree.ArrayRoundTrip | crates/mongo-protocol/src/lib.rs:1035-1069 | the same for arrays, in order |
| BsonTree.DistinctFields | crates/mongo-protocol/src/lib.rs:1039-1069 | with distinct keys the JSON object has exactly the document's fields and values |
| Scram.UserNameRoundTrip | crates/mongo-protocol/src/lib.rs:1277-1288 | a user name escaped as section 5.1 of RFC 5802 says comes back from the client-first message, exactly when it has at most 256 bytes and no control character; the 768-byte guard never decides |
| Scram.CommaPass | crates/mongo-protocol/src/lib.rs:1281-1287 | the first replacement undoes the comma escapes and disturbs no other |
| Scram.EqualsPass | crates/mongo-protocol/src/lib.rs:1281-1287 | the second replacement undoes the rest |
| Deletes.DeleteStatementLimit | crates/mongo-protocol/src/lib.rs:1416-1437 | the loop finds the statement's limit as the recursive search does |
| Deletes.SummarizeDeleteStatements | crates/mongo-protocol/src/lib.rs:1342-1380 | the loop over an inline array computes the recursive tally |
| Deletes.SummarizeDeleteDocumentSequence | crates/mongo-protocol/src/lib.rs:1382-1414 | the loop over a document sequence computes the recursive tally |
| Deletes.TwoFormsOneSummary | crates/mongo-protocol/src/lib.rs:1342-1414 | the same statements give the same scope and count in both forms |
| Deletes.TallyMeaning | crates/mongo-protocol/src/lib.rs:1355-1379 | the count is the saturated number of statements, and the scope flags say whether some statement has limit one or zero |
| Readings.LimitReads | crates/mongo-protocol/src/lib.rs:1416-1437 | the limit of a statement is its first `limit`, read as a number |
| Readings.ScopeReads | crates/mongo-protocol/src/lib.rs:1355-1379 | single, multi or mixed exactly as limits of one and of zero occur among the statements, and their saturated number |
| Readings.StatementsRead | crates/mongo-protocol/src/lib.rs:1342-1380 | the scan of an array is the tally of the documents in it, anything else being passed over |
| Summaries.SummarizeBson | crates/mongo-protocol/src/lib.rs:832-926 | the loop absorbs the document's elements in order and then adds the query |
| Summaries.SummarizeBsonPrefix | crates/mongo-protocol/src/lib.rs:928-1029 | the prefix loop computes the recursive prefix walk |
| Summaries.AbsorbLocal | crates/mongo-protocol/src/lib.rs:857-926 | an element's effect on the summary depends on the value's own bytes only |
| Readings.SummaryReads | crates/mongo-protocol/src/lib.rs:832-926 | every field of a summary, for every list of elements: the last value of the literal keys that write it, the nested exchange and the exported commands included |
| Readings.KeyNames | crates/mongo-protocol/src/lib.rs:863-915 | which literal key is which |
| TreeReadings.DocumentSays | crates/mongo-protocol/src/lib.rs:857-926 | in terms of encoded values: the number under `n` is the affected count, under `code` the error code, the flag under `ok` the outcome, and so on, and nothing where the key is missing |
| TreeReadings.NumbersRead | crates/mongo-protocol/src/lib.rs:1290-1340 | flag, 32-bit number and count of every encoded value |
| PrefixAgreement.PrefixSummaryAgrees | crates/mongo-protocol/src/lib.rs:928-1029 | every field a document prefix reports, if it has one writer in the document, is the document's |
| PrefixAgreement.NoQuery | crates/mongo-protocol/src/lib.rs:928-1029 | a cut-off document never reports query content |
| FramePrefixes.PrefixFrameAgrees | crates/mongo-protocol/src/lib.rs:245-319 | any strict prefix of a decodable frame of any opcode that decodes gives the same ids, flags and length and the same command name, and no singly written field contradicts the whole frame, but for three exceptions that are stated as exact conditions |
| FramePrefixes.ReplyPayload | crates/mongo-protocol/src/lib.rs:530-585 | a cut OP_REPLY agrees on code, code name, count and completion, and on `ok` exactly when the prefix reaches it or the flags say the same |
| FramePrefixes.QueryPayload | crates/mongo-protocol/src/lib.rs:419-491 | a cut OP_QUERY agrees on every singly written field, and on the database exactly when the prefix reaches the document's own or the namespace names the same |
| FramePrefixes.OpMsgSequences | crates/mongo-protocol/src/lib.rs:688-721 | a cut OP_MSG agrees on query and delete fields exactly when the document sequences add nothing else to them |
| CutFrames.ReplyOkCut | crates/mongo-protocol/src/lib.rs:556-569 | the reply `ok: 0`, cut before its value, is taken for a success |
| CutFrames.QueryDatabaseCut | crates/mongo-protocol/src/lib.rs:449-466 | a command query cut before its `$db` reports the namespace's database |
| CutFrames.SequenceCut | crates/mongo-protocol/src/lib.rs:278-319 | a command cut before its document sequence reports a query that lacks it |
| PrefixFrames.PayloadAgrees | crates/mongo-protocol/src/lib.rs:278-319 | the same for the payload of OP_MSG |
| PrefixLimits.PrefixAtBoundary | crates/mongo-protocol/src/lib.rs:928-1029 | cut between two elements, the prefix summary is exactly that of the elements up to the first value without bytes |
| PrefixLimits.BoundaryReads | crates/mongo-protocol/src/lib.rs:928-1029 | there, each field is what the elements seen say, key by key |
| PrefixLimits.DuplicatesExactly | crates/mongo-protocol/src/lib.rs:928-1029 | cut between two elements, a document names the same database as the whole exactly when the last `$db` string before the cut, up to the first value without bytes, is the last one of the document |
| PrefixLimits.DuplicateKeysDisagree | crates/mongo-protocol/src/lib.rs:928-1029 | a family of documents with a repeated key on which prefix and whole disagree, so the single-writer condition cannot be dropped |
| Wire.DecodeOpMsgSections | crates/mongo-protocol/src/lib.rs:602-721 | the section loop computes the recursive reading of kind-0 and kind-1 sections |
| Wire.DecodePrinted | crates/mongo-protocol/src/lib.rs:209-238 | a printed frame decodes as its payload does under the ids, length and opcode of its header |
| PrintedFrames.PrintedMsg | crates/mongo-protocol/src/lib.rs:602-718 | an OP_MSG with one body reads back: ids, length, flags; no response asked for exactly by the second bit, four checksum bytes exactly by the first; a command for a request and a status for a response, each field read off the document |
| PrintedFrames.Opcodes | crates/mongo-protocol/src/lib.rs:225-237 | opcodes 1, 2004 and 2013 are the three plain kinds of frame, and any other is refused |
| PrintedFrames.DocumentReads | crates/mongo-protocol/src/lib.rs:742-773 | the command and the status a document spells, with the literal names of the commands that take a collection or a user |
| PrintedFrames.PrintedReply | crates/mongo-protocol/src/lib.rs:493-585 | an OP_REPLY with a document has its status, either of the two lowest flag bits standing for a failure where it has no `ok` |
| PrintedFrames.PrintedEmptyReply | crates/mongo-protocol/src/lib.rs:556-585 | one without documents has the flags' verdict alone |
| PrintedFrames.PrintedQuery | crates/mongo-protocol/src/lib.rs:382-491 | an OP_QUERY is the command its document spells, in a command namespace, with that namespace's database where it names none, and otherwise a `find` on database and collection |
| PrintedFrames.NamespaceReads | crates/mongo-protocol/src/lib.rs:587-600 | database and collection are parted at the first dot, and `$cmd` and `$cmd.` mark commands |
| PrefixReach.MsgPrefixReadable | crates/mongo-protocol/src/lib.rs:245-319 | a cut OP_MSG is decoded exactly when the name of its command has arrived, and then has the ids, length, flags and name of the whole |
| PrefixReach.PrefixReadable | crates/mongo-protocol/src/lib.rs:928-1029 | a document cut anywhere is summarised exactly when its first key is all there |
| Refusals.FrameAccepted | crates/mongo-protocol/src/lib.rs:209-243 | whatever frame is accepted has its own length in its header, keeps the size limit, has one of four opcodes and, if compressed, one of four compressors, a plain opcode inside and a declared size within the limit |
| Refusals.MsgAccepted | crates/mongo-protocol/src/lib.rs:602-718 | an accepted OP_MSG is, between flags and checksum, a chain of sections of kind 0 and 1 as long as they say, a body among them |
| Refusals.SkipReads | crates/mongo-protocol/src/lib.rs:1178-1246 | a value of each type is stepped over exactly when the bytes that type takes are there, and no other type is |
| Refusals.StringReads | crates/mongo-protocol/src/lib.rs:1248-1263 | a string is read exactly when its length, its UTF-8 text and a zero stand there |
| Refusals.BinaryReads | crates/mongo-protocol/src/lib.rs:1265-1275 | a binary is read exactly when its length, a subtype and its bytes stand there |
| Refusals.CStringReads | crates/mongo-protocol/src/lib.rs:1439-1449 | a key is read exactly when UTF-8 text and the first zero after it stand there |
| Refusals.ByteOrder | crates/mongo-protocol/src/lib.rs:1451-1486 | numbers are read lowest byte first, and are negative by their highest bit |
| Refusals.PrincipalBounded | crates/mongo-protocol/src/lib.rs:1277-1288 | whatever payload names a user, the name is not empty, has at most 256 bytes and no control character |
| Wire.CompressionTransparent | crates/mongo-protocol/src/lib.rs:321-380 | a frame wrapped in OP_COMPRESSED, by any compressor that its decompressor undoes, decodes or fails exactly as the frame itself, but for `compressed` and `wire_bytes` |
| SequenceForms.TwoFormsOneCommand | crates/mongo-protocol/src/lib.rs:602-721 | inline array and document sequence of the same convertible statements decode to equal messages: delete scope, statement count, query and all the rest |
| SequenceForms.SummariesMatch | crates/mongo-protocol/src/lib.rs:688-721 | merging the sequence into the body's summary gives the inline summary |
| ErrorKinds.FrameErrors | crates/mongo-protocol/src/lib.rs:209-238 | no full frame decode reports a buffer error |
| ErrorKinds.FramePrefixErrors | crates/mongo-protocol/src/lib.rs:245-276 | no prefix decode reports a buffer error |
| Streams.StreamDecoder.PushBytes | crates/mongo-protocol/src/lib.rs:114-144 | the loop leaves the buffer and returns the messages or the error that the recursive drain gives |
| Streams.StreamDecoder.PushBoundedPrefix | crates/mongo-protocol/src/lib.rs:149-171 | refuses, pushes whole or cuts to the prefix as specified, and leaves the buffer that results |
| Streams.StreamDecoder.PushTruncatedBytes | crates/mongo-protocol/src/lib.rs:197-206 | decodes buffer and chunk as a prefix and empties the buffer |
| Streams.DrainSplit | crates/mongo-protocol/src/lib.rs:114-144 | draining in two goes is draining at once, and only the unfinished tail must be kept |
| Streams.FragmentationIndependent | crates/mongo-protocol/src/lib.rs:114-144 | for every split into chunks that never overflows: same error as the undivided stream, without one the same messages and the same tail, and with one exactly the messages complete before the failing chunk |
| Streams.FailsOnce | crates/mongo-protocol/src/lib.rs:114-144 | which chunk fails is determined by the stream and its division |
| Streams.MessageLost | crates/mongo-protocol/src/lib.rs:122-143 | a frame that decodes is lost when the same chunk brings a bad header after it, and is not when it comes in a chunk of its own |
| Streams.FramesArrive | crates/mongo-protocol/src/lib.rs:114-144 | frames that each decode come out one by one, in order, in any fragmentation, with exactly the unfinished tail left |
| Streams.SmallChunksFit | crates/mongo-protocol/src/lib.rs:114-127 | chunks within the slack between the two limits never overflow |
| Streams.BoundedRetention | crates/mongo-protocol/src/lib.rs:149-195 | one bounded push keeps under the limit, keeps only an unfinished frame, hands no decoder more than the limit, and cannot report an overflow |
| Streams.BoundedPushMeans | crates/mongo-protocol/src/lib.rs:149-171 | a bounded push is a push while header, length or bytes stay under the limit, and from there on decodes the first bytes up to the limit and empties the buffer |
| Streams.UnfinishedBegins | crates/mongo-protocol/src/lib.rs:173-195 | an unfinished buffer with a full header begins a legal frame; a shorter one does exactly when a legal length with its bytes is within the limit |
| Streams.BeginsNothing | crates/mongo-protocol/src/lib.rs:173-195 | three bytes that begin no legal frame under a small limit |
| Capture.ChunkBounded | crates/observer/src/lib.rs:195-234 | the same for a chunk of the stream table, truncated or not |
| Capture.ChunkMeans | crates/observer/src/lib.rs:195-227 | what a chunk does, in figures: nothing captured, nothing done; less captured than sent, the stream ends with a prefix of at most 1024 bytes; otherwise a push bounded by 1024 |
| Capture.RetentionBounded | crates/observer/src/lib.rs:195-234 | over every run of chunks, closes and exits: each retained buffer is under 1024 bytes and an unfinished frame, which begins a legal frame unless it is shorter than a header and no legal length with those bytes is within the limit; no decode sees more than 1024 bytes, `BufferTooLarge` is unreachable |
| Dns.ParseDnsName | crates/observer/src/lib.rs:811-863 | the loop terminates on every input and computes the recursive walk |
| Dns.NameExpansion | crates/observer/src/lib.rs:811-863 | parsing succeeds exactly on names spelled by labels and pointers (section 4.1.4 of RFC 1035) within 16 jumps and 254 octets, and returns what they spell, in lower case, and where they end |
| Dns.SpellingUnique | crates/observer/src/lib.rs:811-863 | a message spells at most one name at an offset |
| Dns.NameBounds | crates/observer/src/lib.rs:811-863 | a parsed name has at most 253 bytes and ends inside the message, past its start |
| DnsPackets.QuestionReads | crates/observer/src/lib.rs:785-809 | a printed message with a question reads back: identifier, response bit, code, number of answers, name in lower case, record type |
| DnsPackets.BareReads | crates/observer/src/lib.rs:785-809 | the same without a question |
| DnsPackets.PrintedName | crates/observer/src/lib.rs:811-863 | a printed name reads back in lower case, up to its end |
| DnsPairing.DnsReports | crates/observer/src/lib.rs:236-296 | in every run: one event for each message that decodes; a response is paired exactly when its query is kept, and then with the last query of that identifier since the reset, its duration and, where the response is silent, its name and type |
| DnsPairing.DnsTable | crates/observer/src/lib.rs:245-279 | queries are kept until their response, and put out at 4096 by age of thirty seconds or altogether |
| Attribution.AttributionSafety | crates/observer/src/lib.rs:298-410 | in every run, an activity reports a request and carries a principal if and only if it was credited when that request arrived: the latest response since the connection's last close or exit that ended an exchange with success answered a request that named it, or one that named none while it was the last named; which commands take part and which responses end an exchange is by literal name and `done` |
| Attribution.AuthWords | crates/observer/src/lib.rs:902-961 | the classifiers by name: four session commands in any case and speculative ones take part; `authenticate` ends always, SASL and speculative exchanges when done, no other; principals are hashed with the salt |
| Logins.AfterResponse | crates/observer/src/lib.rs:390-407 | the principal of every connection after a response, in every reachable state |
| Logins.NotDone | crates/observer/src/lib.rs:917-926 | a SASL or speculative response that does not say done leaves every principal as it was |
| Logins.NoLogin | crates/observer/src/lib.rs:399-407 | so does a failure, and a response to any other command |
| Logins.AuthenticateInstalls | crates/observer/src/lib.rs:917-926 | a successful `authenticate`, in any case and whatever it says of being done, installs its principal |
| Logins.SaslInstalls | crates/observer/src/lib.rs:395-407 | an exchange that ends with success installs the principal its last request named, or the one that pends |
| Logins.LoginCredits | crates/observer/src/lib.rs:298-475 | from any state, after a successful `authenticate` the next request's activity carries the hash of the user it named |
| Attribution.CreditRests | crates/observer/src/lib.rs:390-407 | a credit rests on a request that named the principal and on the successful response to a stored authentication request, both since the last reset |
| Attribution.TraceMeans | crates/observer/src/lib.rs:313-407 | the positions traced along the run are the ones described by these conditions, and no others |
| Attribution.TargetsNeverActors | crates/observer/src/lib.rs:902-946 | a principal named only outside authentication, as by user management, is never the actor |
| Attribution.NoClearPrincipal | crates/observer/src/lib.rs:309-333 | stored requests never hold a clear principal |
| Attribution.RunTraced | crates/observer/src/lib.rs:298-410 | the invariant behind these: every stored request copies the one that arrived, and both names kept for a connection are those at the traced positions |
| CreditedRequests.CreditedAnsweredExactly | crates/observer/src/lib.rs:390-407 | for every run and every crediting response, the request that named the principal has been answered exactly when it is neither waiting, nor evicted or overwritten, nor sent without asking for a response |
| CreditedRequests.AnsweredExactly | crates/observer/src/lib.rs:334-361 | the same of any request since its connection's last reset |
| CreditedRequests.SequentialCredits | crates/observer/src/lib.rs:390-407 | where authentication requests do not overlap, a credited principal was named by an answered request, no later than the one that ended the exchange |
| CreditedRequests.SequentialAttribution | crates/observer/src/lib.rs:298-410 | there, an activity carries a principal only after the request that named it was answered |
| CreditedRequests.DroppedByReset | crates/observer/src/lib.rs:554-562 | a stored request is dropped only by a close of its connection or an exit of its process |
| Overtaken.OvertakenExchange | crates/observer/src/lib.rs:390-407 | a run in which a principal whose own request is never answered, and is still waiting, ends up as the authenticated one |
| Conservation.RequestConservation | crates/observer/src/lib.rs:334-361 | at every point of every run, response-expecting requests seen are those pending plus completed, overwritten, evicted and dropped by close or exit, all disjoint, and the completed ones are as many as the answering activities emitted |
| Conservation.ActivitiesAreCompletions | crates/observer/src/lib.rs:344-475 | over a run, answering activities and completed requests are equal in number |
| Conservation.OneActivityEach | crates/observer/src/lib.rs:344-475 | an input that answers a stored request completes that request alone, one never completed before, and emits exactly one activity, which is that request's with what the response says; no other input completes one or emits an answering activity |
| Activities.MessageReports | crates/observer/src/lib.rs:298-475 | in every run, what a message makes the processor report, field by field from the request and the response: the query only where configured, database, collection, delete scope in words, sizes, ids, duration, outcome and error, and the authentication event with mechanism and session principal |
| Activities.CompletionReported | crates/observer/src/lib.rs:412-475 | the same of one completion, in any state |
| Activities.EventsNumbered | crates/observer/src/lib.rs:681-689 | events are numbered one after the other, in 64 bits, whatever inputs they come from |
| Signals.SignalReports | crates/observer/src/lib.rs:478-630 | which operation codes make which event, with which duration, and that all others make none |
| Signals.FiguresRun | crates/observer/src/lib.rs:526-533 | the round-trip time and the retransmissions kept for a connection are those since its last reset, in 32 bits |
| Conservation.RunWithinLimits | crates/observer/src/lib.rs:261-276 | pending DNS queries never exceed 4096 and pending requests never exceed 32768 |
| Conservation.PruneMakesRoom | crates/observer/src/lib.rs:705-722 | pruning always makes room for one more request |
| Conservation.PruneMeans | crates/observer/src/lib.rs:705-722 | in figures: nothing below 32768 requests, then those older than five minutes, then one of the oldest |
| Observer.EventProcessor.PrunePendingRequests | crates/observer/src/lib.rs:705-722 | drops what is too old and then, if still full, one of the oldest |
| Observer.EventProcessor.EventsForCompletedRequest | crates/observer/src/lib.rs:364-476 | state and events are those of the completion step, and for every request and response it can stand for the events report them field by field |
| Observer.EventProcessor.ProcessMessage | crates/observer/src/lib.rs:298-362 | takes one step of the machine, extends its run, and reports the message as `Activities.MessageReports` says |
| Observer.EventProcessor.ProcessIoChunk | crates/observer/src/lib.rs:195-234 | takes the stream-table step and then one machine step for each decoded message |
| Observer.EventProcessor.ProcessConnection | crates/observer/src/lib.rs:518-573 | takes one step and emits the event of its code; a close, code 8, leaves no stream, request, query or authentication of the connection |
| Observer.EventProcessor.ProcessLifecycle | crates/observer/src/lib.rs:607-630 | takes one step and emits the event of its code; an exit, code 16, leaves nothing of the process |
| Observer.EventProcessor.ProcessDns | crates/observer/src/lib.rs:236-296 | takes one step and reports the message as `DnsPairing.DnsReports` says, or fails with the state unchanged exactly when the packet does not decode |
| Spool.StepSound | crates/spool/src/lib.rs:59-216 | every file-system call of every operation, and a crash at any point, keeps the spool sound |
| Spool.SpoolInvariant | crates/spool/src/lib.rs:59-216 | in every run with crashes anywhere: ids are content hashes, pending and quarantine are disjoint, and all files together fit `max_bytes`, also while recovery promotes a temporary file |
| Spool.CapacityIsTrue | crates/spool/src/lib.rs:67-77 | below the top of the 64-bit range the capacity bounds the true sum of sizes |
| Spool.NoLimitAtTop | crates/spool/src/lib.rs:69-77 | a capacity of the largest 64-bit value refuses nothing |
| Spool.HeldForever | crates/spool/src/lib.rs:79-89 | a stored body survives every run in which it is not itself removed |
| Spool.NeverRetried | crates/spool/src/lib.rs:136-153 | a body whose quarantine is complete stays quarantined and is never pending again |
| SpoolOperations.DirectoryStats | crates/spool/src/lib.rs:219-230 | the loop gives the saturated count and the saturated total size |
| SpoolOperations.DurableSpool.Open | crates/spool/src/lib.rs:175-216 | recovery promotes exactly the complete temporary files not stored yet and removes the others, by the calls of the machine |
| SpoolOperations.RecoveredStep | crates/spool/src/lib.rs:177-211 | the order in which entries are recovered does not matter |
| SpoolOperations.DurableSpool.Enqueue | crates/spool/src/lib.rs:59-89 | content-idempotent; refused with the three sizes exactly when it does not fit; otherwise stored under its hash by create, write, sync, rename, sync |
| SpoolOperations.DurableSpool.Pending | crates/spool/src/lib.rs:91-111 | lists each pending file once, with its size, in ascending order of the ids |
| SpoolOperations.DurableSpool.Acknowledge | crates/spool/src/lib.rs:120-134 | removes the item and nothing else, and may be repeated |
| SpoolOperations.DurableSpool.Quarantine | crates/spool/src/lib.rs:136-153 | moves the item with its content; succeeds if already there, fails if nowhere |
| Provenance.OriginStep | crates/spool/src/lib.rs:175-216 | with a hash that is collision-free on the run's bodies, torn ones included, a spool holds only bodies that were enqueued |
| Hops.VerdictsCompared | crates/outpost/src/lib.rs:747-756 | both senders keep the contract's statuses, and differ exactly on 1xx, 3xx and codes from 600 |
| Hops.DeliverSpool | crates/observer/src/main.rs:1109-1145 | a delivery pass settles each item as its reply says or leaves it untouched, makes only the file-system calls those replies allow, succeeds only if all were settled, and otherwise stops at an unreadable or unanswered one with all lower ids settled and all higher ones untouched; `deliver_pending` is the same loop |
| Hops.AcceptBatch | crates/outpost/src/lib.rs:355-451 | 401 exactly when a credential is asked for and the header is not `Bearer` and that credential; then 400 exactly when the body is no well-formed batch; then 403 exactly when the assignment differs; 202, and any change or call, only when none of these holds, and 202 exactly when the enriched batch is in the spool; else 500 or 507 with the spool unchanged |
| Hops.BearerMeans | crates/outpost/src/lib.rs:356-361 | the credential read from a header is the expected one exactly when the header spells it out |
| Hops.AdmittedValid | crates/outpost/src/lib.rs:386-424 | what is admitted is valid and of this Outpost's assignment, before and after enrichment |
| Delivery.NoBatchLost | crates/observer/src/main.rs:1109-1145 | in every run of the two-hop protocol with crashes, lost, late and repeated messages, retries and rejections, each batch whose Observer enqueue returned Ok is in one of the four directories or accepted |
| Delivery.VeryBatchKept | crates/observer/src/main.rs:1109-1145 | if no two flushed bodies share a key, each committed body is itself at the Observer, or what the Outpost made of that very body is at the Outpost or accepted |
| Delivery.EventsKept | crates/outpost/src/lib.rs:411-424 | what the Outpost made of a body has its events, each with its payload |
| Delivery.NothingInvented | crates/outpost/src/lib.rs:355-451 | whatever the Outpost stores or the destination accepts is a well-formed batch of the assignment that the Observer flushed and that was posted with the right credential |
| Delivery.AnswerHonest | crates/outpost/src/lib.rs:425-450 | 202 is sent only for a batch that is durably stored at the Outpost |
| Delivery.SecuredStable | crates/outpost/src/lib.rs:699-757 | once stored at the Outpost a batch stays there until the destination has accepted it |
| Delivery.RunInv | crates/observer/src/main.rs:1109-1145 | the invariant of the protocol holds in every reachable state |
| HostRuns.ObserverPass | crates/observer/src/main.rs:1109-1145 | a delivery pass at the Observer, acting on replies that have arrived, extends the behaviour of the protocol |
| HostRuns.OutpostPass | crates/outpost/src/lib.rs:699-727 | so does one at the Outpost |
| HostRuns.AcceptPosted | crates/outpost/src/lib.rs:355-451 | so does `accept_batch` on a posted body, ending with the reply it sends |
| HostRuns.FlushAtObserver | crates/observer/src/main.rs:966-1010 | so does `flush_batch`, and a batch that counts as spooled is committed |
| DeliveryProgress.DeliveryPossible | crates/outpost/src/lib.rs:699-757 | from every reachable state, crashed and half-done hosts included, a batch that is pending once the hosts are up, is admitted and fits can still be delivered, after which neither host has it pending |
| DeliveryProgress.BringUp | crates/spool/src/lib.rs:175-216 | from every reachable state both hosts can be brought up, with what they store unchanged but for recovery |
| Schema.ValidationMeans | crates/schema/src/lib.rs:22-68 | a batch validates exactly when both schema versions are 1, every identifying text has more than white space in it, there is an event, and each event has the batch's four ids and marks query content as it is |
| Schema.BlankMeans | crates/schema/src/lib.rs:26-31 | a text counts as empty exactly when it is a sequence of Unicode white-space characters |
| Enrichment.EnrichExternalIdentities | crates/outpost/src/lib.rs:602-616 | the loop replaces every identity by the mapping's value for the event's hashed principal, or none |
| Enrichment.EnrichBatch | crates/outpost/src/lib.rs:453-485 | the loops compute the enriched batch |
| Enrichment.EnrichmentSafe | crates/outpost/src/lib.rs:453-485 | enrichment keeps the validation verdict, the batch identity and everything of an event but two fields: the identity, which is the mapping's for a hashed principal and otherwise none, and the pod data, which is the cache's for a known pod with its own uid and container name, and otherwise its own with the cluster's name |
| Batcher.FlushBatch | crates/observer/src/main.rs:966-1010 | the buffer becomes one batch, which is in the spool exactly when the spool takes it and otherwise counted as dropped; what the spool held it still holds |
| Batcher.RunBatcher | crates/observer/src/main.rs:928-964 | the loop takes the turns its wake-ups lead to and flushes on closing; its batches are the events pushed, in order, each batch that counts as spooled is in the spool, and every event is in such a batch or counted as dropped |
| Batcher.SensorHealthEvent | crates/observer/src/main.rs:1012-1059 | reports `ok` or `degraded`, the saturated sum of the drop counters, the parse errors and the saturated bytes pending in the spool, under the assignment's names |
| Batcher.BatcherConservation | crates/observer/src/main.rs:928-1010 | over any interleaving and whatever the spool answers, flushed batches and buffer are exactly the events pushed, in order; no batch is empty or over the limit; pushed is stored plus dropped plus buffered, where RunBatcher shows each stored batch in the spool |
| Batcher.ClosedBatcher | crates/observer/src/main.rs:942-964 | after closing nothing is left in the buffer |
| Batcher.ClosingIsATick | crates/observer/src/main.rs:963-963 | the closing flush is one more tick |
| Batcher.WhenFlushed | crates/observer/src/main.rs:942-962 | after a tick nothing is left; an arrival flushes exactly when it makes `max_events` or more |
| Batcher.BatchReads | crates/observer/src/main.rs:976-993 | a batch carries its assignment, its moment and its events, and its id is the hex of the digest of sensor, moment and event ids |
| Validity.EventsAdmissible | crates/observer/src/lib.rs:412-475 | every event the processor emits, in any state and on any input, may stand in a batch of its assignment |
| Validity.HealthAdmissible | crates/observer/src/main.rs:1012-1059 | so may every health event |
| Validity.FlushedBatchesValid | crates/observer/src/main.rs:966-993 | every batch flushed from such events under non-blank names passes validation |
| Validity.FlushedBatchesAdmitted | crates/outpost/src/lib.rs:386-424 | the Outpost of the same assignment admits it, and stores a valid batch with trusted identities only |
| ObjectKeys.EncodeS3KeySegment | crates/outpost/src/lib.rs:840-851 | the loop computes the percent-encoding |
| ObjectKeys.SegmentRoundTrip | crates/outpost/src/lib.rs:840-851 | the encoding of a segment is invertible |
| ObjectKeys.NoSlash | crates/outpost/src/lib.rs:840-851 | it never contains a slash |
| ObjectKeys.PathInjective | crates/outpost/src/lib.rs:819-834 | a path of slash-free components can be split in one way only |
| ObjectKeys.KeyInjective | crates/outpost/src/lib.rs:819-834 | two batches share an object key exactly when customer, tenant, cell, source, date, hour and batch id agree |
| KeyReading.KeyReads | crates/outpost/src/lib.rs:819-834 | split at its slashes, a key gives back customer, tenant, cell, source and batch id under their labels, and date and hour |
| KeyReading.DateReads | crates/outpost/src/lib.rs:826-831 | a date of the common era is year, month and day in four, two and two digits, the hour in two |
| KeyReading.ByteEncoded | crates/outpost/src/lib.rs:842-848 | letters, digits and `-_.` stand for themselves, any other byte is a percent sign and two upper-case digits |
| ObjectKeys.EnrichmentKeepsKey | crates/outpost/src/lib.rs:453-485 | re-enriching a batch under any mappings never changes its key |

## Left out

- The kernel side (`bpf/observer.bpf.c`), probe loading and uprobe scanning: kernel records are arbitrary inputs.
- HTTP, TLS, S3, Kubernetes and metrics plumbing, command-line parsing and event-type allow-lists: only the decisions taken on replies are modelled.
- `/proc` lookups, pod and endpoint parsing, endpoint cache ageing, and the wall clock: they only fill fields that are carried along; times are parameters.
- The insides of snappy, zlib, zstd, gzip, SHA-256, UTF-8, double formatting and JSON text: arbitrary functions with stated hypotheses.
- The trimming of the S3 prefix (`normalized_s3_prefix`) and the NDJSON payload: keys are compared for one fixed prefix.
- Resynchronisation after a large frame has been cut: the code drops the rest of the chunk and does not follow the frame's tail.
- Spool.SpoolInvariant: crashes are the only faults; a rename is atomic, also between the two directories, and other I/O errors are not modelled.
- SpoolOperations.DurableSpool.Open: ids are arbitrary; the source also skips temporary names that are not 64 hex digits, which no enqueue makes.
- Delivery.NoBatchLost: the destination is the contract of `docs/HTTP_PUSH_CONTRACT.md`, lines 40 to 49, taken as a hypothesis; an S3 upload is an acceptance with status 200.
- Conversation ids of SASL exchanges: the code does not decode them, so exchanges are told apart by connection alone.
- Delivery.NoBatchLost: a batch dropped by a full Observer spool is not committed, and is counted by Batcher.FlushBatch instead.
- Batcher.RunBatcher: the two counters are unbounded, where the source wraps at 64 bits.
- Hops.DeliverSpool: one verdict for each body in a pass; the pairing of replies with requests under retries is in Delivery and HostRuns.
- `process_latency` and `process_profile` are steps of the machine but not methods of the class: they change nothing but the sequence number.
- Endpoints, TCP figures and stack addresses inside events: events name their connection by process and kernel key; the figures are kept in the state (`Signals.FiguresRun`).
