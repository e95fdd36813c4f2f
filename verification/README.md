# Telemetry delivery pipeline: a verified model

A Dafny 4.11 model of the parts of the telemetry collector whose correctness depends on several
functions at once, with proofs that hold for every input, every server behaviour and every
schedule. Check it with `dafny verify dfyconfig.toml`.

## What is modelled

**Delivery to Elasticsearch.** One lease (a batch of rows) is sorted, cut into byte-bounded NDJSON
chunks, sent by concurrent tasks under a semaphore, retried document by document, and finally
acknowledged, refused or partly quarantined.

- `Ndjson`: documents of a bulk payload, and the byte-range extraction of a sub-payload.
- `BulkItems`, `Failures`, `BulkRetry`: item statuses, failure classes, and the partial-retry loop as a
  state machine over the cluster's answers. A server is any function from POST number to answer.
- `Deliveries`: what a call does and comes to, told from its POSTs and answers without the state machine.
- `Endpoints`, `Rotations`, `HttpClients`: the choice of an endpoint, the rotation with its cooldowns and
  stored names, and the client object that runs the loop in place.
- `RowSerializer`, `RowReading`, `Chunking`: the text of a row, what a reader gets out of it, and the greedy
  cut into chunks.
- `LeaseVerdict`, `LeaseTasks`, `ProcessLease`: what a lease comes to, the tasks that compute it in any
  completion order, and the whole of `process_lease`.
- `Refusals`: the events a lease sees, told from the answers to its chunks.
- `RowAccounting`, `LeaseDelivery`: the accounting of every row and of the document behind every item, and
  the one theorem from the leased batch through the sort to the last event.
- `Permits`: any number of leases sharing one semaphore, as a transition system.

**OTLP attributes.** `Json` is a printer and an RFC 8259 parser (sections 2 to 7), `JsonScanning` the parser
on texts it has not printed, `JsonObject` the key-sorted, duplicate-free values that `serde_json` builds,
`Attributes` and `AttributeWriter` the normalised JSON of an attribute list and the buffer-appending
writers, `AttributeReading` what a reader makes of the printed and the rendered texts. `Metrics`, `Logs` and
`Traces` are the decoders (with `Otlp`, `Concats`, `FlatRecords` and `DecodedResources` shared), and
`DecodedColumns` says of every column what it holds of the request. `RemapRules` and `Compliance` are the
compliance engine.

**Smaller parts.** `Sorting` and `KafkaSlices` (partition slices of a sorted batch), `FileNamer` (monotone
Parquet names), `Glob` (wildcards and index templates), `Supervisor` (the shutdown sequence).

`Wrappers`, `Widths`, `Text`, `TextBuffers` and `Bags` are shared vocabulary. Bytes and text are both
`string`; a byte is the character with its code.

## Assumptions about the environment

- The j-th item of an answer is about the j-th document of the POST it answers, as the bulk API promises.
- A 200 answer flagged `errors: true` to the full payload has one item per document (`AnswersListEveryRow`),
  and every item carries a status that is a success (200 to 299) or a failure (400 and above)
  (`AnswersDecide`). The theorems that need these say so; `RowIsLostIff`, `EmptyAnswersLoseEveryRow` and
  `BlankItemsLoseEveryRow` show what happens without them.
- An answer that is not flagged and does not list a document has taken it.
- The text that formatters print for a finite double or an integer column is a JSON number.
- The lexicographic sort yields some permutation in the order of its comparator; it need not be stable.
- Two readings of the clock in one POST, and readings in different POSTs, are unrelated.

## What the proofs found

- `send_bulk` returns its first decodable answer uninspected when that answer is not flagged `errors`,
  so an `Ok` result can hold retryable items. `OkHasRecoverableIff` says exactly when; `process_lease`
  refuses such a lease as transient.
- The failure class of a rejected request is read back from its message text, which includes the
  server's own words. `OtherStatusIsRejectedIff` gives the exact words that turn a permanent rejection into
  a transient failure, and `QuotedPhraseIsTransient` is a received answer that does.
- The sink looks for failures, not for acceptances. It acknowledges documents nobody accepted when an
  answer that flags errors lists too few items, or when the last item about a document names no action or a
  status that is neither a success nor a failure. `RowIsLostIff` gives the exact answers that lose a row;
  `EmptyAnswersLoseEveryRow` and `BlankItemsLoseEveryRow` are the two witnesses.
- Column names are written unescaped. A row is one bulk document exactly when no written name has a
  line break (`RowIsADocumentIff`), and its source line reads back as its cells exactly when every written
  name is plain (`RowReadsBackIff`). The witnesses are `NewlineInNameSplitsRow`, `QuoteInNameMisreads` and
  `NewlineInNameShiftsDocuments`, where an answer about a piece of one row is taken to be about the next.
- Remapping depends on the iteration order of a hash map unless the moving rules are independent
  (`ConfluentIff`, an equivalence).
- An endpoint that fails rests exactly when no white space precedes the slashes at the end of its
  configured name and no earlier name is stored in the same form (`ConfiguredEndpointRestsIff`). Otherwise it
  may never rest (`SpacedNameNeverRests`), or another endpoint rests in its place (`WrongEndpointRests`).
- During shutdown a sink failure before the deadline goes unreported when the source does not stop in time,
  because the drain awaits the source first (`SinkFailureIsSeenIff`).

## Model

| member | source | states |
|---|---|---|
| Ndjson.ExtractSubPayload | crates/elasticsearch-sink/src/client.rs:136-218 | the byte-range scan and copy return exactly the requested documents, each newline-terminated, with blank lines and a missing final newline handled, or the error that applies |
| Ndjson.ScanLineRanges | crates/elasticsearch-sink/src/client.rs:144-167 | the one-pass scan finds the ranges of the non-blank lines, in order, including an unterminated last one |
| Ndjson.ExtractComposes | crates/elasticsearch-sink/src/client.rs:136-218 | extracting J from the extraction of I equals extracting the composed indices from the original payload |
| Ndjson.ExtractFailsIff | crates/elasticsearch-sink/src/client.rs:136-218 | extraction fails exactly for a non-empty index list on an odd number of non-blank lines or with an index out of range |
| Ndjson.ExtractedDocuments | crates/elasticsearch-sink/src/client.rs:136-218 | the extracted payload has again an even number of lines and its documents are the chosen ones |
| Ndjson.ExtractFromDocuments | crates/elasticsearch-sink/src/client.rs:136-218 | from a payload made of whole documents, extraction returns their exact bytes |
| Ndjson.EmptyLineIsSkipped | crates/elasticsearch-sink/src/client.rs:144-167 | a line of spaces, tabs and carriage returns between documents makes no difference |
| Ndjson.FullLinesAreADocument | crates/elasticsearch-sink/src/client.rs:144-218 | two lines that each hold some other character are one document, also with an empty line between them |
| BulkItems.FailureKindsExclude | crates/elasticsearch-sink/src/client.rs:60-98 | remark on the specification: an item is never both retryable and refused, and one that is neither is an acceptance or decides nothing |
| BulkItems.StatusIsOfFirstAction | crates/elasticsearch-sink/src/client.rs:64-76 | remark on the specification: the status is that of the first action named, in the order create, index, update, delete |
| Failures.TransientMessageIsTransient | crates/elasticsearch-sink/src/lib.rs:182-205 | giving up after a retried HTTP status is classified transient |
| Failures.NetworkMessageIsTransient | crates/elasticsearch-sink/src/lib.rs:182-205 | giving up after network errors is classified transient |
| Failures.RecoverableMessageIsTransient | crates/elasticsearch-sink/src/lib.rs:182-205 | giving up with retryable items left is classified transient |
| Failures.OtherStatusIsRejectedIff | crates/elasticsearch-sink/src/lib.rs:182-205 | any other status is classified rejected exactly when the server's text lacks the exhausted-retries phrase |
| Failures.QuotedPhraseIsTransient | crates/elasticsearch-sink/src/lib.rs:182-205 | witness: a 400 answer whose text quotes the exhausted-retries phrase is classified transient |
| BulkRetry.MergeAt | crates/elasticsearch-sink/src/client.rs:688-701 | the answer at position p overwrites the entry of the p-th active document, and no other |
| BulkRetry.StepKeepsInv | crates/elasticsearch-sink/src/client.rs:866-964 | an iteration keeps: active indices increase, the active documents are exactly the retryable ones, the payload is the extraction of the active indices from the original |
| BulkRetry.EveryPostIsAligned | crates/elasticsearch-sink/src/client.rs:866-964 | in every POST the k-th document is document `active[k]` of the original payload, and exactly the documents last reported retryable are sent |
| BulkRetry.PostsAreBounded | crates/elasticsearch-sink/src/client.rs:872-873 | at least one and at most `max_retries + 1` POSTs are made |
| BulkRetry.SettledNeverResent | crates/elasticsearch-sink/src/client.rs:866-964 | a document accepted or refused for good is in no later POST, and its entry is the one returned |
| BulkRetry.ResultIsLatest | crates/elasticsearch-sink/src/client.rs:866-964 | each entry of an Ok result is the last status reported for that original document, and a document without an entry was never mentioned |
| BulkRetry.LastReportIff | crates/elasticsearch-sink/src/client.rs:866-964 | the last report for a document is the item of the last answer that speaks of it, at the place the document has in that POST |
| BulkRetry.OkHasRecoverableIff | crates/elasticsearch-sink/src/client.rs:904-933 | an Ok result holds a retryable item exactly when the final answer was the first decodable one, not flagged, and held one |
| BulkRetry.UncheckedAnswerExample | crates/elasticsearch-sink/src/client.rs:909-912 | a concrete answer that is returned with a retryable item in it |
| BulkRetry.ResultCovers | crates/elasticsearch-sink/src/client.rs:904-933 | if flagged answers list every document, every inspected result does |
| BulkRetry.ResultMissesIff | crates/elasticsearch-sink/src/client.rs:904-933 | an inspected result has no entry for document d exactly when some POST that carried the whole payload was answered with a flagged list of at most d items |
| BulkRetry.ExhaustedIsTransient | crates/elasticsearch-sink/src/client.rs:866-964 | a call that fails as a bulk failure, its last answer being no other error status, has made all `max_retries + 1` POSTs (bounded by the counter's width), and its failure is transient |
| Deliveries.NextPostIff | crates/elasticsearch-sink/src/client.rs:866-964 | a further POST follows a POST exactly while attempts are left and it got no answer, one of the five retried statuses, or an inspected answer after which the last report of some document is 429, 500 or 503, the payload being even and holding every such document |
| Deliveries.ResultFollows | crates/elasticsearch-sink/src/client.rs:866-964 | the result told from the last answer: Ok, missing credentials, a success that is no bulk response, documents that cannot be sent again, or any other failure, each exactly when |
| Deliveries.UnsendableIsFirst | crates/elasticsearch-sink/src/client.rs:816-831 | only a first bulk response, flagged, can leave documents that cannot be sent again |
| Deliveries.FlagFollows | crates/elasticsearch-sink/src/client.rs:909-930 | an uninspected answer is returned as it is; otherwise the result is flagged exactly when the last report of some document is 400 or above |
| Deliveries.ClassFollows | crates/elasticsearch-sink/src/lib.rs:182-205 | a failed call is fatal exactly if its last answer was 401 or 403, rejected exactly if it ended on another unretried status whose words lack the phrase or on documents that cannot be sent again, and transient otherwise |
| HttpClients.HttpClient.constructor | crates/elasticsearch-sink/src/client.rs:358-416 | endpoints are the stored forms of the configured names, in order, with no cooldown |
| HttpClients.HttpClient.NextEndpoint | crates/elasticsearch-sink/src/client.rs:421-449 | the endpoint chosen from the wrapping counter and the cooldowns, and the counter's new value |
| HttpClients.HttpClient.MarkEndpointFailed | crates/elasticsearch-sink/src/client.rs:452-472 | only the first endpoint of that name gets a cooldown, saturating |
| HttpClients.HttpClient.SendBulk | crates/elasticsearch-sink/src/client.rs:866-964 | the loop with its mutable state computes the state machine's result and makes exactly its POSTs, whatever the endpoints and the two clock readings of each POST, and leaves counter and cooldowns as those POSTs demand; what they are is told from the answers by `Deliveries` |
| Rotations.MarkedRestsIff | crates/elasticsearch-sink/src/client.rs:452-472 | marking endpoint i as failed puts endpoint i to rest exactly when trimming leaves its stored name unchanged and no earlier endpoint has that name |
| Rotations.MarkedTouchesOne | crates/elasticsearch-sink/src/client.rs:452-472 | marking touches at most the first endpoint that bears the stored form of the name, which then rests for ten seconds, saturating |
| Rotations.EndpointFailsIff | crates/elasticsearch-sink/src/client.rs:876-880 | remark on the specification: no answer and the statuses 429, 500, 502, 503 and 504 make an endpoint rest |
| Rotations.OtherAnswersRestNothing | crates/elasticsearch-sink/src/client.rs:866-964 | any other answer leaves all cooldowns as they are |
| Rotations.OutOfRotationIff | crates/elasticsearch-sink/src/client.rs:421-449 | unless all endpoints rest, an endpoint is selected for no counter value exactly while its cooldown runs |
| Rotations.FailedEndpointRestsIff | crates/elasticsearch-sink/src/client.rs:421-472 | after a failing POST the asked endpoint stays out of the rotation until its cooldown ends, wherever the counter stands, exactly when it is found again under its name |
| Rotations.StoredNameIsStableIff | crates/elasticsearch-sink/src/client.rs:366-370 | trimming leaves a stored name unchanged exactly when the configured one has no white space before its final slashes |
| Rotations.NormalizeIs | crates/elasticsearch-sink/src/client.rs:366-370 | a stored name is the configured one without the white space around it and then without the slashes at its end |
| Rotations.ConfiguredEndpointRestsIff | crates/elasticsearch-sink/src/client.rs:366-472 | the same stated on configured names: an endpoint can rest exactly when no white space precedes its final slashes and no earlier name is stored in the same form |
| Rotations.SpacedNameNeverRests | crates/elasticsearch-sink/src/client.rs:366-370 | witness: the name `h /`, whose failure leaves every cooldown as it was |
| Rotations.WrongEndpointRests | crates/elasticsearch-sink/src/client.rs:452-472 | witness: with `h` and `h /`, the failure of the second puts the first to rest |
| HttpClients.MergeRetryItems | crates/elasticsearch-sink/src/client.rs:688-701 | the in-place merge of an answer into the recorded items |
| HttpClients.InspectActiveItems | crates/elasticsearch-sink/src/client.rs:753-799 | the positions of the active documents whose recorded item asks for a retry |
| HttpClients.PrepareSubPayloadRetry | crates/elasticsearch-sink/src/client.rs:816-831 | the next sub-payload with the original indices of its documents, nothing if no document is retryable, or the extraction error |
| Endpoints.ChooseIsCyclicallyFirst | crates/elasticsearch-sink/src/client.rs:421-449 | the cyclically first endpoint out of cooldown is chosen, or the round-robin start if there is none |
| Endpoints.ChoiceByIndex | crates/elasticsearch-sink/src/client.rs:437-448 | the first endpoint out of cooldown at or after the start is chosen, failing that the first before it, and failing that the start |
| Rotations.AskedByIndex | crates/elasticsearch-sink/src/client.rs:421-449 | the same for a selection, the start being the counter modulo the number of endpoints |
| Endpoints.FailedEndpointIsAvoided | crates/elasticsearch-sink/src/client.rs:421-472 | an endpoint in cooldown is not chosen while another is available |
| Endpoints.RoundRobinIsFair | crates/elasticsearch-sink/src/client.rs:421-449 | among any n times k consecutive counter values each of the n starting points occurs exactly k times |
| Rotations.SelectionIsFair | crates/elasticsearch-sink/src/client.rs:421-449 | with no endpoint resting and no counter wrap, any n times k consecutive selections ask each of the n endpoints exactly k times, whatever the clock reads at each |
| Rotations.CounterSteps | crates/elasticsearch-sink/src/client.rs:434 | selections one after the other move the wrapping counter on by one each |
| RowSerializer.WriteEscapedString | crates/elasticsearch-sink/src/serializer.rs:514-532 | appends a literal that RFC 8259 parsing reads as the very string |
| RowSerializer.QuotedReadsBack | crates/elasticsearch-sink/src/serializer.rs:514-532 | the escaped, quoted text of any string parses back to that string |
| RowSerializer.WriteStringCol | crates/elasticsearch-sink/src/serializer.rs:418-460 | appends a string cell as text that parses to the JSON it embeds or, when it embeds none, to the string |
| RowSerializer.StringReadsBack | crates/elasticsearch-sink/src/serializer.rs:418-460 | the text of a string cell is always one JSON value: the one its content reads as when it is embedded (normalised if it had line breaks), and the string otherwise |
| RowSerializer.WriteRow | crates/elasticsearch-sink/src/serializer.rs:93-209 | the reused row buffer holds the action line and the object of the non-null cells, or a cell cannot be displayed; the members it reads as are given by `RowMembersAt` |
| RowSerializer.RowIsADocumentIff | crates/elasticsearch-sink/src/serializer.rs:93-209 | a serialized row, whatever its cells hold, is exactly one document of two non-blank lines if and only if no written name has a line break |
| RowSerializer.NewlineInNameSplitsRow | crates/elasticsearch-sink/src/serializer.rs:141-143 | witness: a written column name with a line break makes a row that is not one document |
| RowSerializer.NewlineInNameShiftsDocuments | crates/elasticsearch-sink/src/serializer.rs:141-143 | witness: with such a name, the second document of a chunk of two rows is not the second row |
| JsonScanning.ParseValueExtend | crates/elasticsearch-sink/src/serializer.rs:446-449 | text after a value leaves the value as it was, unless it continues a number at the end |
| JsonScanning.ReadsBackIffPlain | crates/elasticsearch-sink/src/serializer.rs:141-143 | a text put between quotes as it is reads back as itself if and only if it has no quote, backslash or control character |
| RowReading.RowReadsBackIff | crates/elasticsearch-sink/src/serializer.rs:93-209 | the source line of a row parses to the object of its non-null cells, in column order, if and only if every written name needs no escaping |
| RowReading.RowMembersAt | crates/elasticsearch-sink/src/serializer.rs:120-149 | the k-th member is that of the k-th non-null column, under `@timestamp` for the column `timestamp` and under its own name otherwise, with JSON embedded at most in `attributes` and `resource_attributes` |
| RowReading.TimeIsRenamed | crates/elasticsearch-sink/src/serializer.rs:124-129 | unless a column is itself called `@timestamp`, that key occurs exactly if the time is not null; `timestamp` is never a key |
| RowReading.ActionReadsBack | crates/elasticsearch-sink/src/serializer.rs:93-117 | the action line is the JSON object that asks to create a document |
| RowReading.QuoteInNameMisreads | crates/elasticsearch-sink/src/serializer.rs:141-143 | witness: a quote in a written name changes what the row reads as |
| Chunking.SerializeBatchChunks | crates/elasticsearch-sink/src/serializer.rs:93-209 | succeeds exactly when every row serializes, and returns a bounded greedy split of the rows that fit and the list of those that do not |
| Chunking.RowsArePartitioned | crates/elasticsearch-sink/src/serializer.rs:93-209 | a row is in a chunk exactly if its text is at most the bound, in one only, and listed as oversized exactly if it is longer |
| Chunking.RowsAreDocumentsIff | crates/elasticsearch-sink/src/serializer.rs:93-209 | every row of a batch is one document if and only if no row writes a name with a line break |
| Chunking.GreedyIsOptimal | crates/elasticsearch-sink/src/serializer.rs:93-209 | no other split of the fitting rows into contiguous bounded runs has fewer chunks |
| Chunking.GreedyIsUnique | crates/elasticsearch-sink/src/serializer.rs:93-209 | the greedy split is determined by the rows and the bound |
| Chunking.ExtractFromChunk | crates/elasticsearch-sink/src/serializer.rs:93-209 | the documents of a chunk are its rows, and extracting documents I from it gives the bytes of rows `start_row + i` |
| LeaseVerdict.WorstSeverity | crates/elasticsearch-sink/src/lib.rs:212-256 | the highest severity over all failed chunks, 0 exactly if none failed |
| LeaseVerdict.NegativeVerdictQuarantinesNothing | crates/elasticsearch-sink/src/lib.rs:352-549 | a lease is acknowledged exactly if it is not refused; a refused one has nothing quarantined; a lost permit, a panicked task, a failed chunk or a retryable item left over refuses it |
| LeaseTasks.ChunkTasks.RecordTaskResult | crates/elasticsearch-sink/src/lib.rs:222-255 | one result is added to the outcomes or replaces a kept error of lower severity |
| LeaseTasks.ChunkTasks.Dispatch | crates/elasticsearch-sink/src/lib.rs:262-298 | every chunk with rows is spawned once, any number of finished tasks being recorded before |
| LeaseTasks.ChunkTasks.DrainJoinSet | crates/elasticsearch-sink/src/lib.rs:303-312 | every spawned task is recorded once and the join set ends empty |
| LeaseTasks.DrainedErrors | crates/elasticsearch-sink/src/lib.rs:222-255 | for every completion order, the retained error has the maximum severity over all failed chunks |
| LeaseTasks.DrainedOutcomes | crates/elasticsearch-sink/src/lib.rs:431-486 | for every completion order, the sorted outcomes are the deliveries in chunk order |
| ProcessLease.Lease.Settle | crates/elasticsearch-sink/src/lib.rs:533-548 | rejected rows are quarantined before the acknowledgement, and a dead-letter failure refuses the lease as fatal |
| ProcessLease.CollectRefusedItems | crates/elasticsearch-sink/src/lib.rs:510-531 | the rows of the refused items that lie in the chunk and in the batch |
| ProcessLease.DispatchAll | crates/elasticsearch-sink/src/lib.rs:431-466 | all chunks are spawned and joined, or a closed semaphore stops the dispatch and what was spawned is joined |
| ProcessLease.Process | crates/elasticsearch-sink/src/lib.rs:352-549 | the events of a lease are a function of the batch and the surroundings: the same for every completion order; processing returns an error exactly when the lease is refused as fatal; what the events are is told from the answers by `Refusals.EventsFollow` |
| Refusals.EventsFollow | crates/elasticsearch-sink/src/lib.rs:352-549 | a lease is refused as fatal exactly if the semaphore was closed, a task panicked or some chunk ended on 401 or 403; else as rejected exactly if some chunk ended where no retry helps; else as transient exactly if some chunk was not delivered or was left with a retryable item; and else it is settled |
| Refusals.StoreIsOfferedTheSame | crates/elasticsearch-sink/src/lib.rs:533-548 | a failing dead-letter store is offered the rows a working one takes |
| RowAccounting.EveryPostSendsBatchRows | crates/elasticsearch-sink/src/lib.rs:352-549 | in every POST for a chunk, the j-th document is the text of row `start_row + active[j]` of the sorted batch, provided no written name has a line break |
| RowAccounting.LastWordIsLastAnswer | crates/elasticsearch-sink/src/lib.rs:352-549 | when every row is one document, the last word on a row is the item of the last answer about it, and the document at that item's place in that POST is the row's own text |
| RowAccounting.QuarantineIsExact | crates/elasticsearch-sink/src/lib.rs:484-548 | an acknowledged lease quarantined exactly the oversized rows and the rows whose last word is unrecoverable, none twice; when every row is one document, exactly the oversized rows and those whose own document the last answer about it refused for good |
| RowAccounting.EveryRowIsAccountedFor | crates/elasticsearch-sink/src/lib.rs:352-549 | every row of an acknowledged batch is exactly one of quarantined, accepted by the cluster (or unlisted by an answer free of errors), and left open: its last item is neither success nor failure, or it was never mentioned in answers that report errors |
| RowAccounting.NoRowIsLost | crates/elasticsearch-sink/src/lib.rs:352-549 | if flagged answers list every document and every item is a success or a failure, each row is taken exactly if it is not quarantined |
| RowAccounting.RowIsLostIff | crates/elasticsearch-sink/src/client.rs:904-933 | a row of an acknowledged batch is neither taken nor quarantined exactly when some POST that carried its whole chunk was answered with a flagged list too short to reach it, or the last item about it has no status or one below 400 that is no success |
| RowAccounting.UndecidedAnswersLoseEveryRow | crates/elasticsearch-sink/src/lib.rs:510-531 | for any batch, flagged answers none of whose items decides anything make the sink acknowledge while losing every row that fits |
| RowAccounting.EmptyAnswersLoseEveryRow | crates/elasticsearch-sink/src/lib.rs:510-531 | witness: flagged answers without items |
| RowAccounting.BlankItemsLoseEveryRow | crates/elasticsearch-sink/src/client.rs:44-58 | witness: flagged answers that list every document, with items that name no action |
| RowAccounting.RowsAreConserved | crates/elasticsearch-sink/src/lib.rs:352-549 | under the same two promises, quarantined and taken rows are together, as a multiset, the leased batch |
| LeaseDelivery.ProcessLeasedBatch | crates/elasticsearch-sink/src/lib.rs:352-549 | sorting, cutting, delivering and settling one lease: fatal exactly if it cannot be prepared, and otherwise with the events that follow from the answers. If it ends acknowledged, every leased row was quarantined or taken, one of the two and once, when answers list and decide every document, and otherwise exactly the rows that an answer passes over or leaves undecided are neither; with written names of one line, each row's fate is that of the last answer about its own document |
| Permits.PermitsAreConserved | crates/elasticsearch-sink/src/lib.rs:262-312 | in every state of every interleaving, free and held permits add up to the limit and no more requests than that are in flight |
| Permits.WaitingMeansHeld | crates/elasticsearch-sink/src/lib.rs:279-287 | a dispatcher that waits for a permit or for one of its tasks has some lease holding a permit, and that lease can move |
| Permits.SomethingMoves | crates/elasticsearch-sink/src/lib.rs:262-312 | no deadlock: unless all leases are finished, some step can be taken |
| Permits.RunsAreBounded | crates/elasticsearch-sink/src/lib.rs:262-312 | without new arrivals, every schedule ends after a bounded number of steps |
| Permits.MaximalRunsFinish | crates/elasticsearch-sink/src/lib.rs:262-312 | a run that cannot go on has finished every lease and returned every permit |
| Permits.EveryChunkIsJoined | crates/elasticsearch-sink/src/lib.rs:262-312 | a finished lease has joined each of its chunks exactly once |
| Permits.NoPermitsNoProgress | crates/elasticsearch-sink/src/lib.rs:71-86 | with a limit of zero nothing is ever sent, which is why the configuration forbids it |
| Json.ParsePrinted | crates/arrow-codec/src/common.rs:168-322 | a printed value followed by anything that cannot extend it parses back to itself |
| Json.ParseOfPrint | crates/arrow-codec/src/common.rs:168-322 | printing and RFC 8259 parsing undo each other |
| Json.PrintIsOneLine | crates/elasticsearch-sink/src/serializer.rs:446-449 | compact output holds no raw control character |
| Json.PrintIsCompact | crates/elasticsearch-sink/src/serializer.rs:446-449 | printing adds no white space |
| JsonObject.ReadOfPrint | crates/arrow-codec/src/compliance.rs:162-179 | reading back a printed key-sorted value gives it unchanged |
| JsonObject.LessIff | crates/arrow-codec/src/compliance.rs:173-177 | the key order is that of bytes: a proper prefix first, and else the smaller byte where two keys first differ |
| JsonObject.ViewIsLast | crates/arrow-codec/src/compliance.rs:76-82 | the association of a member list holds the last member of each key |
| JsonObject.PutIsUpdate | crates/arrow-codec/src/compliance.rs:173-177 | inserting into the object updates its association and keeps it sorted |
| JsonObject.DeleteIsRemoval | crates/arrow-codec/src/compliance.rs:173-177 | removing from the object removes the key and nothing else |
| JsonObject.FromMembersView | crates/arrow-codec/src/compliance.rs:76-82 | reading keeps the last member of each key |
| Attributes.MembersAreLastWins | crates/arrow-codec/src/common.rs:208-267 | printing each key at its last occurrence with a value gives the association of sequential writes, each key once |
| Attributes.AttributesRoundTrip | crates/arrow-codec/src/common.rs:168-322 | the printed attributes parse back to the normalised value, and no object in it repeats a key at any depth |
| Attributes.IntIsNotDouble | crates/arrow-codec/src/common.rs:280-297 | no integer prints to the token of a double |
| Attributes.DoubleTextIsNumber | crates/arrow-codec/src/common.rs:283-297 | the text of a finite double is a JSON number with a point or an exponent |
| Attributes.DecimalInjective | crates/arrow-codec/src/common.rs:280-282 | distinct natural numbers have distinct decimal texts |
| AttributeReading.IntReadsBack | crates/arrow-codec/src/common.rs:280-282 | the token of an integer, sign included, denotes that integer |
| AttributeReading.IntsDiffer | crates/arrow-codec/src/common.rs:280-282 | distinct integers print to texts that parse to distinct values |
| AttributeReading.HexReadsBack | crates/arrow-codec/src/common.rs:120-131 | the text of a byte string is pairs of lower-case hexadecimal digits that denote its bytes |
| AttributeReading.PrintStands | crates/arrow-codec/src/common.rs:268-322 | the printed text of any value parses to a JSON value that stands for it, at every depth: integers by number, bytes by digits, objects by the last value of every key |
| AttributeReading.RenderedShows | crates/arrow-codec/src/common.rs:328-358 | the unquoted text shows the value: numbers and bytes by their digits, booleans as words, objects as JSON, lists in brackets |
| Attributes.ServiceNameIsPrintedValue | crates/arrow-codec/src/common.rs:146-163 | the service name renders the very value the printed object holds for `service.name`, and is "unknown" when it holds none |
| AttributeReading.ServiceNameShows | crates/arrow-codec/src/common.rs:146-163 | the service name shows the last value that `service.name` has, and is "unknown" without one |
| AttributeWriter.EscapeJsonStr | crates/arrow-codec/src/common.rs:168-188 | the fast path and the character loop both append the escaped text |
| AttributeWriter.WriteHexToString | crates/arrow-codec/src/common.rs:120-131 | encoding in pieces of 32 bytes appends the hex of the whole |
| AttributeWriter.KeepMask | crates/arrow-codec/src/common.rs:216-231 | the reverse hash-set pass keeps exactly the indices the lookahead scan keeps |
| AttributeWriter.IsSetLater | crates/arrow-codec/src/common.rs:244-252 | the lookahead finds a later occurrence of the key with a value |
| AttributeWriter.WriteKvlistJson | crates/arrow-codec/src/common.rs:208-267 | both deduplication paths append the printed normalised object |
| AttributeWriter.WriteAnyValueJson | crates/arrow-codec/src/common.rs:273-322 | appends the printed normalised value, for every nesting |
| AttributeWriter.WriteAttributesJson | crates/arrow-codec/src/common.rs:194-197 | the result does not depend on what the buffer held before |
| AttributeWriter.WriteAnyValueString | crates/arrow-codec/src/common.rs:328-358 | appends the unquoted rendering of a value |
| RemapRules.AppliedIsMoved | crates/arrow-codec/src/compliance.rs:171-178 | independent rules applied one by one act all at once: a fed key holds its source's value, a source is gone, the rest is untouched |
| RemapRules.IndependentIsConfluent | crates/arrow-codec/src/compliance.rs:171-178 | every order of independent rules gives the same attributes |
| RemapRules.IndependentIsIdempotent | crates/arrow-codec/src/compliance.rs:171-178 | applying independent rules twice changes nothing more |
| RemapRules.ChainDiverges | crates/arrow-codec/src/compliance.rs:171-178 | if a target is another rule's source, two orders differ on a concrete attribute map |
| RemapRules.SharedTargetDiverges | crates/arrow-codec/src/compliance.rs:171-178 | if two rules share a target, two orders differ on a concrete attribute map |
| RemapRules.RemapMembersView | crates/arrow-codec/src/compliance.rs:171-178 | the in-place edits of the object are the edits of the association it stands for |
| RemapRules.RemapTextMeans | crates/arrow-codec/src/compliance.rs:152-189 | a cell that is not JSON is kept; an object becomes the object, sorted by key, of the association that the rules make of its last members; other JSON is only normalised |
| RemapRules.ConfluentIff | crates/arrow-codec/src/compliance.rs:152-189 | the text of every cell is independent of the iteration order exactly when the moving rules have distinct targets and no target is a source |
| RemapRules.RemapTextIsIdempotent | crates/arrow-codec/src/compliance.rs:152-189 | remapping a remapped cell changes nothing |
| Compliance.CheckBatchCompliance | crates/arrow-codec/src/compliance.rs:64-86 | true exactly when every row's resource is a JSON object with `service.name`; an error exactly for a column that is not text |
| Compliance.NamesServiceIff | crates/arrow-codec/src/compliance.rs:70-84 | a cell names its service exactly when it is a JSON object with a member `service.name` |
| Compliance.ExecuteRemapRules | crates/arrow-codec/src/compliance.rs:152-189 | every cell of the columns `attributes` and `resource_attributes` is remapped, nulls and all other columns are kept; an error exactly if one of those columns is not text or there are no columns |
| Compliance.AssessAndRemap | crates/arrow-codec/src/compliance.rs:104-150 | nothing is done when off or done before; else a batch whose first `resource_attributes` column names a service in every cell, after remapping in that mode, is tagged, another fails in strict mode and is set aside in the others, and a column that should be text and is not is an error; a tagged batch keeps row count, columns, other metadata and everything but remapped columns |
| Compliance.TaggedBatchesAreCompliant | crates/arrow-codec/src/compliance.rs:104-150 | remark on the specification of `AssessAndRemap`: a batch the engine tags names its service in every row and keeps row count, columns, other metadata and everything but remapped attribute columns |
| Compliance.StrictFailsWhereQuarantineDiverts | crates/arrow-codec/src/compliance.rs:113-137 | remark on the specification of `AssessAndRemap`: strict mode fails exactly on the batches quarantine mode sets aside |
| Compliance.ReassessmentIsUnchanged | crates/arrow-codec/src/compliance.rs:104-111 | remark on the specification of `AssessAndRemap`: an accepted batch assessed again, in any mode, comes back unchanged |
| Compliance.AssessmentIgnoresOrder | crates/arrow-codec/src/compliance.rs:104-189 | with independent rules the assessment does not depend on their iteration order |
| Compliance.RemappedNamesServiceIff | crates/arrow-codec/src/compliance.rs:152-189 | a remapped row names its service exactly when a rule brings it in, or it had it and no rule takes it away |
| Compliance.DecodedNamesServiceIff | crates/arrow-codec/src/compliance.rs:70-84 | a printed resource passes exactly when its attributes end up with a value for `service.name` |
| Otlp.FormatResource | crates/arrow-codec/src/metrics.rs:221-230 | the reused buffer holds the JSON of this resource only |
| Metrics.MetricsRecordBuilder.AppendRecord | crates/arrow-codec/src/metrics.rs:68-93 | appends to all ten columns, or fails on a late timestamp with three columns one entry longer |
| Metrics.ProcessNumberPoints | crates/arrow-codec/src/metrics.rs:97-163 | appends one row per point of a gauge or sum, integers through the conversion to a double and doubles bit for bit, or fails exactly when a timestamp does not fit |
| Metrics.ProcessHistogram | crates/arrow-codec/src/metrics.rs:166-191 | appends one row per histogram point with its sum bit for bit or, without one, its converted count |
| Metrics.CountRecords | crates/arrow-codec/src/metrics.rs:195-215 | the counting pass counts exactly the records decoded later |
| Metrics.DecodeMetrics | crates/arrow-codec/src/metrics.rs:194-287 | succeeds exactly when every consumed timestamp fits, and then every column holds one entry per record in nested order with its own resource and scope |
| Metrics.ResourceRowsShareResource | crates/arrow-codec/src/metrics.rs:220-279 | all rows of a resource carry its own attributes and service name |
| Metrics.DecodedIsCompliantIff | crates/arrow-codec/src/compliance.rs:64-86 | a decoded batch passes the compliance check exactly when every resource with records ends up with a `service.name` |
| DecodedColumns.PointColumns | crates/arrow-codec/src/metrics.rs:97-287 | position n of every column is about the n-th data point of the request in nested order: its metric, time, attributes, resource and scope, and its value, for a histogram the sum when it has one and else the count |
| DecodedColumns.PointsFitIff | crates/arrow-codec/src/metrics.rs:194-287 | a request of metrics can be decoded exactly when all times of its points are below 2^63 |
| FlatRecords.CountRecords | crates/arrow-codec/src/logs.rs:18-24 | the counting pass counts exactly the records decoded later; traces.rs:18-24 runs the same pass |
| Logs.LogsBuilders.AppendLog | crates/arrow-codec/src/logs.rs:70-93 | appends to all thirteen columns with the shared scratch buffer, or stops at a late timestamp |
| Logs.FormatBody | crates/arrow-codec/src/common.rs:364-388 | the text of a body, whichever path formats it |
| Logs.DecodeLogs | crates/arrow-codec/src/logs.rs:18-112 | succeeds exactly when both timestamps of every record fit, and then the columns are the records in nested order |
| FlatRecords.ResourceRowsShareResource | crates/arrow-codec/src/logs.rs:50-93 | all rows of a resource carry its own attributes, for any record type |
| Logs.DecodedIsCompliantIff | crates/arrow-codec/src/compliance.rs:64-86 | a decoded batch of logs passes the compliance check exactly when every resource with records ends up with a `service.name` |
| DecodedColumns.LogColumns | crates/arrow-codec/src/logs.rs:18-112 | position n of every column is about the n-th record of the request in nested order: each time, id, text and attribute list in its own column |
| DecodedColumns.LogsFitIff | crates/arrow-codec/src/logs.rs:70-93 | a request of logs can be decoded exactly when both times of every record are below 2^63 |
| Traces.TracesBuilders.AppendSpan | crates/arrow-codec/src/traces.rs:73-100 | appends to all fifteen columns, or stops at a late timestamp with six or seven of them one entry longer |
| Traces.DecodeTraces | crates/arrow-codec/src/traces.rs:18-127 | succeeds exactly when both timestamps of every span fit, and then the columns are the spans in nested order |
| Traces.DecodedIsCompliantIff | crates/arrow-codec/src/compliance.rs:64-86 | a decoded batch of spans passes the compliance check exactly when every resource with spans ends up with a `service.name` |
| DecodedColumns.SpanColumns | crates/arrow-codec/src/traces.rs:18-127 | position n of every column is about the n-th span of the request in nested order: trace, span and parent ids each in their own column, a missing status as code 0 |
| DecodedColumns.SpansFitIff | crates/arrow-codec/src/traces.rs:73-81 | a request of spans can be decoded exactly when both times of every span are below 2^63 |
| DecodedColumns.RowsAreFlat | crates/arrow-codec/src/traces.rs:55-100 | the rows of any request are those of its records, one for one and in nested order |
| Sorting.RowLeIsPreorder | crates/core/src/sort.rs:233-317 | the configured comparator is a total preorder |
| Sorting.SortedIsOrdered | crates/core/src/sort.rs:278-303 | in sorted rows, two that agree on all earlier sort columns have in the next one values that do not decrease if it is ascending and do not increase if it is descending, and nulls in front exactly if nulls come first |
| Sorting.ResolvedKeys | crates/core/src/sort.rs:250-304 | the sort columns are the keys whose columns exist, in order, each the first column of its name with the key's own options |
| Sorting.SortColumns | crates/core/src/sort.rs:250-304 | the lead column comes first, missing columns are skipped or fail |
| Sorting.LexsortToIndices | crates/core/src/sort.rs:303-315 | for every table there is a sorted order of its rows, and the sort finds one, with ties in any order |
| Sorting.SortOrder | crates/core/src/sort.rs:233-317 | a permutation of the rows in the order of the resolved columns; none exactly for a missing column that must not be skipped, and never for fewer than two rows |
| Sorting.SortWithExtraLeadColumn | crates/core/src/sort.rs:233-317 | the result holds the rows of the batch, each once, ordered by the lead column and the keys as their options ask for; it fails exactly on a missing column that must not be skipped, and never for fewer than two rows |
| Sorting.ParseShorthand | crates/core/src/sort.rs:89-144 | accepts exactly a column followed by well-formed clauses; descending exactly if the last of ASC and DESC is DESC, nulls first exactly if the last of FIRST and LAST is FIRST |
| Sorting.ClausesOfWords | crates/core/src/sort.rs:102-135 | every list of clauses is found again in its words |
| KafkaSlices.ExtractPartitionSlices | crates/kafka-sink/src/lib.rs:320-369 | the slices are the maximal runs of equal keys, null and the empty text being different, and concatenate to the batch; errors exactly for a missing or non-text column |
| KafkaSlices.RunsArePartitioned | crates/kafka-sink/src/lib.rs:278-369 | after sorting, slice keys increase strictly and each slice is ordered by the remaining sort keys |
| KafkaSlices.EachKeyOnce | crates/kafka-sink/src/lib.rs:278-369 | a key is in at most one slice, and the null slice is the last |
| KafkaSlices.PrepareKafkaSlices | crates/kafka-sink/src/lib.rs:278-306 | the slices hold the rows of the batch, each once, as the runs of equal keys of a sorted batch, for every order the sort may give ties; it fails exactly when the sort or the key column does |
| KafkaSlices.SendPreparedSlices | crates/kafka-sink/src/lib.rs:451-515 | no failure exactly if every record was delivered, or sent after a full queue; otherwise the gravest class of all refusals and failed deliveries; an error exactly for a cancelled delivery |
| FileNamer.StampsIncrease | crates/parquet-sink/src/naming.rs:62-80 | over every interleaving of callers and any clock readings, timestamps increase strictly in swap order until saturation |
| FileNamer.StampsAreDistinct | crates/parquet-sink/src/naming.rs:62-80 | two calls share a timestamp only at saturation |
| FileNamer.NamesSortByStamp | crates/parquet-sink/src/naming.rs:95-107 | names under one prefix and node sort in byte order as their timestamps do |
| FileNamer.IssuedNamesSort | crates/parquet-sink/src/naming.rs:62-109 | names issued in swap order sort in that order |
| FileNamer.NameLength | crates/parquet-sink/src/naming.rs:86-91 | a name fills the reserved capacity exactly with a five-digit sequence number and is one byte shorter otherwise |
| FileNamer.FileNameIs | crates/parquet-sink/src/naming.rs:82-107 | a name tells its parts: the directory without trailing slashes, the stamp in twenty digits, node, unique id, and the sequence number in at least four digits |
| FileNamer.Namer.GenerateFilename | crates/parquet-sink/src/naming.rs:62-109 | one undisturbed call: the clock's timestamp if it moved forward and else the next one, saturating, and a name within capacity that tells it |
| Glob.MatchesIffDecomposes | crates/elasticsearch-sink/src/client.rs:1558-1601 | the recursive definition accepts exactly the targets that can be cut into one part per pattern character |
| Glob.MatchRecursive | crates/elasticsearch-sink/src/client.rs:1558-1590 | the nested loops and recursion terminate and decide the match |
| Glob.PatternMatches | crates/elasticsearch-sink/src/client.rs:1594-1601 | true exactly when the target decomposes according to the pattern |
| Glob.WinningTemplate | crates/elasticsearch-sink/src/client.rs:1400-1437 | the first listed among the matching templates of highest priority, a missing priority counting as 0, and none exactly if none matches |
| Supervisor.Supervision.JoinOthers | src/main.rs:1194-1233 | the concurrent drain joins exactly the tasks that end in time, in any order |
| Supervisor.Supervision.AbortRemaining | src/main.rs:1263-1294 | exactly the unfinished tasks are aborted, and all are joined |
| Supervisor.Supervision.Supervise | src/main.rs:1075-1303 | no handle is awaited twice, all seven end up joined, and exactly the tasks whose end the drain did not see are aborted; the exit reports the task that stopped early, or else the first sink the drain saw fail, or else a buffer that could not be finalized after a timeout |
| Supervisor.ExitIsErrorIff | src/main.rs:1075-1329 | remark on the specification of `Supervise`: the three causes of an error exit |
| Supervisor.SinkFailureIsSeenIff | src/main.rs:1185-1261 | remark on the specification of `Supervise`: after a signal, a sink failure before the deadline is reported exactly if the source stopped in time |

## Left out

- HTTP transport, TLS, compression, request signing, Retry-After and sleeping: a POST is one of the answers in `PostOutcome`.
- Timing totals, reason strings and log messages: only the failure class and the rows are kept.
- The lease, the buffer and the dead-letter store: only the events a lease sees; a failing `ack` or `nack` call is not modelled.
- White space other than ASCII when endpoint names are trimmed, and the rejection of empty endpoint lists and names.
- Trimming slashes from the data stream name, which only changes the request URL.
- Concurrent use of the endpoint rotation by several tasks: its atomics are updated by one call at a time here.
- Fairness among waiting dispatchers: a free permit may go to any of them, where the semaphore serves them in order.
- `serde_json`: its recursion limit, and its rewriting of numbers (a number keeps its token here).
- Floating-point formatting: a double attribute is the text printed for it. A metric value is a 64-bit pattern, and the conversion from integers is any function to such patterns.
- Arrow builders, `take`, `slice` and IPC: columns and batches are sequences, and serializing a Kafka slice is not modelled.
- Timestamp text of the row serializer and the `Display` of other column types: given as text.
- `KafkaSlices.SendPreparedSlices`: the classes of broker errors are given, since their table decides nothing else.
- `FileNamer.StampsIncrease`: clones of a namer have their own clock and are not compared.
- The three-tier template validation around `Glob.WinningTemplate`, health checks, configuration, routing, the transformer, Iceberg, StarRocks and the Parquet writer.
