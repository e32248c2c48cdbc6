# gcp-local: verified models of the emulator's state machines and text transformations

gcp-local emulates Google Cloud services on one machine. This project models the parts of it that
hold real protocols and hand-written language processing, in Dafny, and proves what they keep over
every run or every input. `dafny verify dfyconfig.toml` checks all of it.

| area | files | main results |
|---|---|---|
| Pub/Sub subscription queues | Leases, LeaseInvariants, LeaseTheorems, LeaseDeadlines, PubSub | Ack ids stay distinct for ever; leases are decided by the client-visible history; nothing is lost; a leased message is handed out to nobody else before its deadline; superseded and nacked ids are ignored; order is kept. The service works in place on arrays and every call is a step of the machine. |
| Resumable uploads and buckets | ContentRange, Uploads, UploadTheorems, ResumeTheorems, UploadReplies, HeaderGrammar, Storage | True slices in any order assemble the file exactly; a resuming client finishes; headers round-trip; metadata and data agree after every run; the reply to every header, and what it leaves. |
| MySQL translator | MySqlLexemes, MySqlTranslate, MySqlRegions, MySqlProtected, MySqlColumns, MySqlRule, MySqlRuleExact, MySqlNesting, MySqlWitness, MySqlReread, MySqlRereadTheorems, MySqlRejoined, MySqlTypes, MySqlOptions, Quotes, Words | The single pass equals a column-by-column reading of the nesting; when the AUTO_INCREMENT rule holds, exactly; protected regions are kept byte for byte, and which of them, exactly; when the output read again has the same regions, exactly; foreign statements are unchanged; each type, option and modifier, word for word. |
| Postgres translator | PgRegions, PgSplit, PgSplitTheorems, PgStatements, PgRewrite, PgTranslate, PgPlain, PgSlots, PgCasts, PgDollar, PgDollarKept, PgKeywords | Splitting gives the texts between the separators, is stable and cuts no region; rewriting parameters keeps meaning; slots are counted exactly; when the cast pass drops no more than it documents, and when a dollar quote comes through the later passes, exactly. |
| BigQuery CONCAT | Concat, ConcatArgs, ConcatCalls, ConcatTrees, ConcatTheorems, ConcatGrammar, ConcatMeaning, ConcatLoose, ConcatText, ConcatTextTheorems | Rewriting stops on every text, finds the matching parenthesis, and on printed trees yields the chains; a text has one tree, and read back by precedence it keeps its value exactly if no argument holds an operator too loose for `\|\|`. |
| Firestore Commit and Listen | Documents, Listeners, Firestore | Commits are idempotent; the messages sent reproduce the store, exactly unless a target matches a stored name that one batch deleted and rewrote; what each stream is sent, message by message. |
| Logging filters | FilterLexer, LogFilter, FilterTheorems, FilterCanonical, SeverityNumbers, SeveritySelections, SeverityRanks, FilterFields | Filters print and parse back; accepted text is exactly conjunctions of comparisons; when numbers are read right and when they select right. |

Conventions. A `string` is a Go byte string, one character per byte. State that the source updates in
place is a class whose methods are tied to a value-level machine (`Leases.Next`, `Uploads.Step`) by
their contracts; theorems over runs speak of traces of that machine. One step of Pub/Sub is one
section under the service mutex, one step of storage is one request. `state.Store` is a map from
namespaces to maps (internal/state/memory.go). Loops over Go maps run in an arbitrary order. Clocks are
parameters and need not be monotone; `time.Parse`, hashes and field encodings are opaque.

Where code and documentation disagree, the model follows the code:

- pgwire/translate.go announces `$N` as `?N`; the code writes `?` and returns the order.
- pgwire/translate.go:149-150 says that only `::IDENT` is removed; the code removes every identifier byte
  and space that follows, `FROM t` included (`PgCasts`).
- pgwire/translate.go:182-183 says that keywords are replaced outside of quoted regions; neither this pass
  nor the cast pass knows the dollar quotes that the first pass protects (`PgDollar`, `PgDollarKept`).
- Firestore UpdateDocument takes a field mask but merges every field it is given
  (internal/services/firestore/firestore.go:143-149), unlike Commit.
- logging/filter.go documents numeric severities; unquoted ones cannot be tokenised, and signed ones
  compare with another number (`SeverityNumbers`).
- mysqlwire/translate.go documents that AUTO_INCREMENT lands after the PRIMARY KEY of its column; a
  parenthesis nested between the two can prevent it, exactly as `MySqlRuleExact` states.

## Model

| member | source | states |
|---|---|---|
| `Leases.EnqueueAppends` | internal/services/pubsub/pubsub.go:364-379 | publishing appends the whole batch, contiguously and in order, with fresh ack ids, to each listed subscription |
| `Leases.EnqueueSkips` | internal/services/pubsub/pubsub.go:364-379 | a queue that is not listed stays as it was |
| `Leases.TakenIsGranted` | internal/services/pubsub/pubsub.go:402-426 | each of the first `limit` available messages is returned, at its rank and under its fresh ack id |
| `Leases.GrantedIsTaken` | internal/services/pubsub/pubsub.go:402-426 | whatever a pull returns is one of those messages, in queue order |
| `LeaseInvariants.ReplaceQueue` | internal/services/pubsub/pubsub.go:350-484 | a step that changes one queue, reusing only its own ids or issuing fresh ones, keeps the invariant and revives no dead ack id |
| `LeaseInvariants.NextKeepsInv` | internal/services/pubsub/pubsub.go:339-484 | every section keeps all ack ids globally distinct and bounded by the counter, and an id that no queue holds is never held again |
| `LeaseInvariants.AckIdsInvariant` | internal/services/pubsub/pubsub.go:339-484 | the ack-id invariant holds after every run |
| `LeaseInvariants.QueueStep` | internal/services/pubsub/pubsub.go:339-484 | what each step does to each queue; a step on one subscription leaves every other queue alone |
| `LeaseInvariants.PositionsKept` | internal/services/pubsub/pubsub.go:339-484 | apart from acknowledging and deleting, no step moves or alters a stored message |
| `LeaseInvariants.UnackedMembers` | internal/services/pubsub/pubsub.go:443-450 | compaction is a filter: it keeps exactly the messages not inflight under one of the ids |
| `LeaseInvariants.MessageIdsInvariant` | internal/services/pubsub/pubsub.go:350-381 | after every run a queue holds distinct, published message ids |
| `LeaseTheorems.HistoryDecidesLeases` | internal/services/pubsub/pubsub.go:339-484 | after every run the lease stored with a message is the one read off the requests and replies alone |
| `LeaseTheorems.AckRemovesExactly` | internal/services/pubsub/pubsub.go:430-453 | an acknowledgement removes a message if and only if it carries the ack id of its latest pull and that lease was not given back |
| `LeaseTheorems.StepKeepsMessage` | internal/services/pubsub/pubsub.go:339-484 | every other step keeps the message |
| `LeaseTheorems.NothingIsLost` | internal/services/pubsub/pubsub.go:339-484 | over any run, a message gone from a queue was removed at a definite step by such an acknowledgement or by deleting its subscription |
| `LeaseTheorems.PullRespectsLeases` | internal/services/pubsub/pubsub.go:88-90 | a pull returns a message if and only if no lease in its history covers the clock and fewer than `limit` such messages come before it |
| `LeaseTheorems.LeaseKillsOldId` | internal/services/pubsub/pubsub.go:402-426 | handing a message out again removes its previous ack id from every queue |
| `LeaseTheorems.DeadForever` | internal/services/pubsub/pubsub.go:339-484 | an ack id that no queue holds stays so in every continuation |
| `LeaseTheorems.DeadIdsAreIgnored` | internal/services/pubsub/pubsub.go:430-484 | in a request with any ids, a dead one might as well be missing: every queue ends the same; a request with no other id changes no queue |
| `LeaseTheorems.SupersededIdIsIgnored` | internal/services/pubsub/pubsub.go:383-484 | an id superseded by a later pull is ignored for ever, in every request it comes with and on every subscription |
| `LeaseTheorems.NoLeaseWithoutPull` | internal/services/pubsub/pubsub.go:383-428 | a lease given back does not return without a pull |
| `LeaseTheorems.AckAfterNackIsIgnored` | internal/services/pubsub/pubsub.go:430-484 | after a nack no acknowledgement removes the message until it is pulled again |
| `LeaseTheorems.StepKeepsOrder` | internal/services/pubsub/pubsub.go:339-484 | a step keeps the relative order of the messages that survive it |
| `LeaseTheorems.GoneStaysGone` | internal/services/pubsub/pubsub.go:339-484 | over any run, a published message that is not in a queue never enters it again |
| `LeaseTheorems.OrderIsKept` | internal/services/pubsub/pubsub.go:339-484 | over any run, surviving messages keep their relative order |
| `LeaseDeadlines.PullGrants` | internal/services/pubsub/pubsub.go:399-428 | each message a pull returns is leased from then on, by history, under the ack id it came with, the next of the counter, until the deadline |
| `LeaseDeadlines.LeaseOutlasts` | internal/services/pubsub/pubsub.go:339-484 | over any run a lease stays in force as granted while the message is there, unless a pull later than the deadline or a deadline change naming its ack id comes in between |
| `LeaseDeadlines.HeldUntilDeadline` | internal/services/pubsub/pubsub.go:88-90 | over any run, no pull at a clock up to the deadline hands a leased message out again, unless a deadline change named its ack id in between |
| `LeaseDeadlines.PulledIsHeld` | internal/services/pubsub/pubsub.go:391-426 | so what a pull at `now` returns is returned by no pull of the next `seconds` times 1000000000 nanoseconds |
| `LeaseDeadlines.NackedIsFree` | internal/services/pubsub/pubsub.go:474-477 | a message given back is returned by the next pull whose limit reaches it, whatever the clock |
| `PubSub.PublishDelivers` | internal/services/pubsub/pubsub.go:358-379 | a publish puts the messages with data, attributes, ordering key and times as given at the end of each target queue, unleased, and touches no other queue |
| `PubSub.LeaseInPlace` | internal/services/pubsub/pubsub.go:402-426 | the in-place pull loop leaves the leased queue in the array and returns the grants |
| `PubSub.CompactInPlace` | internal/services/pubsub/pubsub.go:443-451 | the compaction over the front of the same array equals the filter |
| `PubSub.ExtendInPlace` | internal/services/pubsub/pubsub.go:471-482 | the in-place deadline loop changes exactly the messages named |
| `PubSub.Append` | internal/services/pubsub/pubsub.go:376 | Go append: in place while capacity lasts, else a fresh array; the contents grow by one |
| `PubSub.Service.EnqueueTo` | internal/services/pubsub/pubsub.go:366-377 | one subscription of a publish: the batch lands at the end of its queue, no other array shows a change |
| `PubSub.Service.FanOut` | internal/services/pubsub/pubsub.go:364-379 | the publish section is one Enqueue step over all subscriptions of the topic |
| `PubSub.Service.LeaseSection` | internal/services/pubsub/pubsub.go:399-427 | the pull section is one Lease step and returns its reply |
| `PubSub.Service.LeaseUntil` | internal/services/pubsub/pubsub.go:399-427 | that section in the history: one Lease, its reply, and each message of it leased until the deadline |
| `PubSub.Service.EnqueueBatch` | internal/services/pubsub/pubsub.go:364-379 | the publish section in the history: one legal Enqueue, and each queue of the topic ends with the batch |
| `PubSub.Service.RemoveSection` | internal/services/pubsub/pubsub.go:441-452 | the acknowledge section is one Remove step |
| `PubSub.Service.ExtendSection` | internal/services/pubsub/pubsub.go:469-483 | the modify section is one Extend step |
| `PubSub.Service.DropSection` | internal/services/pubsub/pubsub.go:344-346 | the delete section is one Drop step |
| `PubSub.Service.CreateSubscription` | internal/services/pubsub/pubsub.go:302-327 | error cases in order; the default deadline of ten seconds |
| `PubSub.Service.DeleteSubscription` | internal/services/pubsub/pubsub.go:339-348 | removes subscription and queue, or reports it missing |
| `PubSub.Service.SubsForTopic` | internal/services/pubsub/pubsub.go:617-633 | lists exactly the subscriptions of the topic, each once |
| `PubSub.Service.AssignIds` | internal/services/pubsub/pubsub.go:358-363 | message ids are consecutive counter values |
| `PubSub.FreshIdsFit` | internal/services/pubsub/pubsub.go:350-381 | ids drawn from the counter were never published before, so every publish is a legal step |
| `PubSub.Service.PublishMessages` | internal/services/pubsub/pubsub.go:350-381 | extends the history by one legal Enqueue to exactly the subscriptions of the topic, under ids `msg-N` counted on, or reports it missing; every queue of the topic ends with the messages unchanged |
| `PubSub.Service.PullMessages` | internal/services/pubsub/pubsub.go:383-428 | extends the history by one Lease of at most the limit (ten by default) until now plus the seconds of the subscription (ten by default); each message returned is leased until then, by history, under `ack-N` counted on |
| `PubSub.Service.Acknowledge` | internal/services/pubsub/pubsub.go:430-453 | extends the history by one Remove of the ids given, or leaves all as it is |
| `PubSub.Service.ModifyAckDeadline` | internal/services/pubsub/pubsub.go:457-484 | extends the history by one Extend of the ids given, or leaves all as it is; by history, just the leases under these ids end (no seconds left) or run until now plus the seconds |
| `ContentRange.RoundTrip` | internal/services/storage/objects.go:323-379 | parsing the printed form of every Content-Range shape recovers its numbers and flags (section 14.4 of RFC 9110) |
| `ContentRange.ParsedBounds` | internal/services/storage/objects.go:323-379 | a parsed range starts at a non-negative int64 |
| `ContentRange.HeldRoundTrip` | internal/services/storage/objects.go:381-389 | a client reading the 308 Range header back learns exactly how many bytes are held |
| `Uploads.LengthCheckIgnoresWrap` | internal/services/storage/objects.go:284-291 | the length check in wrapping int64 arithmetic is the check in integers |
| `UploadTheorems.NamespacesApart` | internal/services/storage/storage.go:341-347 | object and data namespaces of all buckets are distinct |
| `UploadTheorems.StepEffect` | internal/services/storage/objects.go:118-129 | what each operation does to each bucket: store one object, erase one, clear, or nothing |
| `UploadTheorems.BucketsStaySound` | internal/services/storage/objects.go:483-505 | after every run metadata and data of a bucket have the same keys, sizes equal lengths, generations are bounded by the counter |
| `UploadTheorems.DeleteBucketEmptiesBoth` | internal/services/storage/storage.go:327-339 | deleting a bucket empties both its namespaces |
| `UploadTheorems.GenerationNeverFalls` | internal/services/storage/objects.go:483-505 | the generation counter never falls |
| `UploadTheorems.OverwritesRaiseGeneration` | internal/services/storage/objects.go:483-505 | over any run an object is untouched, data included, or has a higher generation than anything before |
| `UploadTheorems.SessionIdsAreIssued` | internal/services/storage/objects.go:183-223 | every open session has an id printed from the counter, so a new id is never in use |
| `UploadTheorems.HonestVerdict` | internal/services/storage/objects.go:234-312 | a true slice is appended only where the buffer stays a prefix of the file, and ends the upload only when it completes it |
| `UploadTheorems.HonestStep` | internal/services/storage/objects.go:234-312 | one honest request, or any other traffic, keeps the buffer a prefix or delivers the file |
| `UploadTheorems.UploadDeliversFile` | internal/services/storage/objects.go:234-407 | over every run of true slices in any order, with duplicates, gaps, status queries and one-shot remainders, the buffer is a prefix of the file and the object stored at the end is the file |
| `UploadTheorems.StaysClosed` | internal/services/storage/objects.go:234-407 | over any run, a session that has ended is never live again |
| `ResumeTheorems.ResumeNamesBytesHeld` | internal/services/storage/objects.go:381-389 | every 308 reply names exactly the bytes held |
| `ResumeTheorems.PrintedChunkIsAccepted` | internal/services/storage/objects.go:234-312 | a chunk printed for the offset held is accepted, with the total declared or unknown, and is the last exactly if it declares the total it reaches |
| `ResumeTheorems.PrintedRestIsAccepted` | internal/services/storage/objects.go:279-291 | a chunk with an open end printed for the offset held is accepted as the last |
| `ResumeTheorems.ResumingAdvances` | internal/services/storage/objects.go:234-312 | every accepted non-empty body, declared total or not, strictly lengthens the buffer or ends the session |
| `ResumeTheorems.StaysShort` | internal/services/storage/objects.go:234-312 | an open session lacks part of the file, if a chunk that starts where the server stands and reaches the end is declared last |
| `ResumeTheorems.ResumingFinishes` | internal/services/storage/objects.go:234-407 | as many accepted bodies as there are bytes missing end the upload, whatever is interleaved |
| `UploadReplies.HeadersAreWritten` | internal/services/storage/objects.go:323-389 | the headers of the following rows, written out: `bytes a-b/t`, `bytes a-*/t`, `bytes */t`, and the reply `bytes=0-n` |
| `HeaderGrammar.HeaderIff` | internal/services/storage/objects.go:323-379 | a header is read, and as which range, if and only if it is `bytes `, a span or `*`, a slash and a total or `*`, with 64-bit decimals; the last chunk is the one that ends one byte before the total |
| `UploadReplies.RefusedIff` | internal/services/storage/objects.go:225-288 | a data request is answered 404 if and only if bucket, session or their match is missing, and 400 if and only if its header cannot be parsed or its length disagrees with the body; then nothing changes |
| `UploadReplies.StatusIsAnswered` | internal/services/storage/objects.go:266-272 | a status query is answered 308 with the bytes held and records a declared total, nothing else |
| `UploadReplies.MisplacedIsAnswered` | internal/services/storage/objects.go:295-300 | a chunk that does not start where the buffer ends is answered 308 with the bytes held and changes nothing |
| `UploadReplies.MisplacedRestIsAnswered` | internal/services/storage/objects.go:295-300 | so is one with an open end |
| `UploadReplies.ChunkIsAppended` | internal/services/storage/objects.go:301-311 | a chunk that starts there and does not reach the total is appended, answered 308 with the new count, and records a declared total |
| `UploadReplies.LastChunkEnds` | internal/services/storage/objects.go:301-310 | one that reaches the total ends the upload: the session goes, and its object is the whole buffer with the type declared at the start |
| `UploadReplies.RestEnds` | internal/services/storage/objects.go:279-291 | so does one with an open end |
| `UploadReplies.OneShotEnds` | internal/services/storage/objects.go:240-253 | so does a body without a Content-Range |
| `UploadReplies.MediaStores` | internal/services/storage/objects.go:409-423 | a media upload fails exactly without its bucket or a name, and otherwise stores the body under the next generation with the type given |
| `UploadReplies.StartOpens` | internal/services/storage/objects.go:183-223 | a resumable upload fails in the same cases, and otherwise opens an empty session under an id never in use |
| `UploadReplies.BucketReplies` | internal/services/storage/storage.go:216-339 | creating and deleting buckets and deleting objects: the reply in every case, and what is there afterwards |
| `Storage.Service.CreateBucket` | internal/services/storage/storage.go:216-251 | one CreateBucket step, and its reply |
| `Storage.Service.DeleteObjects` | internal/services/storage/storage.go:327-339 | the deletion loop removes every listed key from both namespaces |
| `Storage.Service.DeleteBucketAndObjects` | internal/services/storage/storage.go:327-339 | one DeleteBucket step, and its reply |
| `Storage.Service.UploadResumableStart` | internal/services/storage/objects.go:183-223 | one StartUpload step, and its reply |
| `Storage.Service.StoreObject` | internal/services/storage/objects.go:483-505 | metadata and data are written under the next generation |
| `Storage.Service.FinaliseResumable` | internal/services/storage/objects.go:391-407 | the buffer becomes the object and the session closes |
| `Storage.Service.ReceiveChunk` | internal/services/storage/objects.go:274-312 | a chunk is judged by its declared range: bad, out of place, appended or the last |
| `Storage.Service.ReceiveData` | internal/services/storage/objects.go:234-312 | the branches of a data request do what the session machine does |
| `Storage.Service.UploadResumableData` | internal/services/storage/objects.go:234-312 | one PutData step, and its reply |
| `Storage.Service.UploadMedia` | internal/services/storage/objects.go:409-423 | one UploadMedia step, and its reply |
| `Storage.Service.DeleteObject` | internal/services/storage/objects.go:118-129 | one DeleteObject step, and its reply |
| `MySqlLexemes.SkipSingleQuoted` | internal/services/cloudsql/mysqlwire/translate.go:303-320 | ends at the first apostrophe neither escaped by a backslash nor doubled, or at the end |
| `MySqlLexemes.SkipDoubleQuoted` | internal/services/cloudsql/mysqlwire/translate.go:322-335 | ends at the first quote that is not doubled, or at the end |
| `MySqlLexemes.SkipBackquoted` | internal/services/cloudsql/mysqlwire/translate.go:337-346 | ends at the first backquote, or at the end |
| `MySqlLexemes.SkipLineComment` | internal/services/cloudsql/mysqlwire/translate.go:348-354 | ends before the newline |
| `MySqlLexemes.SkipBlockComment` | internal/services/cloudsql/mysqlwire/translate.go:356-365 | ends behind the first closing mark, or at the end |
| `MySqlLexemes.MatchTableOption` | internal/services/cloudsql/mysqlwire/translate.go:243-290 | the end of `keyword = value` or 0, with the two-word DEFAULT CHARSET |
| `MySqlLexemes.CheckNumericLen` | internal/services/cloudsql/mysqlwire/translate.go:292-301 | whether the first non-blank byte in the parenthesis is a digit |
| `MySqlTranslate.TrimTrailingHSpace` | internal/services/cloudsql/mysqlwire/translate.go:206-211 | the trimming loop drops the blanks at the end and nothing else |
| `MySqlTranslate.BlanksPass` | internal/services/cloudsql/mysqlwire/translate.go:133-139 | blanks behind a keyword come out one by one, so the keyword that stays and the one that waits cut the text alike |
| `MySqlTranslate.TranslateSQL` | internal/services/cloudsql/mysqlwire/translate.go:24-202 | the single pass is the machine over lexemes |
| `MySqlTranslate.AutoIncrement` | internal/services/cloudsql/mysqlwire/translate.go:113-139 | table option, in place behind a printed key, or deferred |
| `MySqlTranslate.Primary` | internal/services/cloudsql/mysqlwire/translate.go:140-167 | PRIMARY KEY takes a keyword pending at its depth with it |
| `MySqlTranslate.RewriteWord` | internal/services/cloudsql/mysqlwire/translate.go:105-199 | types with their size hints, dropped modifiers, table options and plain words |
| `MySqlTranslate.Word` | internal/services/cloudsql/mysqlwire/translate.go:98-200 | one turn over a word leaves the rest of the pass to do what the machine would |
| `MySqlTranslate.Punctuate` | internal/services/cloudsql/mysqlwire/translate.go:71-97 | parentheses and commas end columns before they are printed |
| `MySqlTypes.TypeIsRenamed` | internal/services/cloudsql/mysqlwire/translate.go:170-186 | a type name in any case, where the pass reaches it, comes out as its SQLite name: five become INTEGER, four REAL, two DATETIME, three TEXT, five BLOB; a size hint that starts with a digit goes, and what is around is translated as before |
| `MySqlTypes.BareTypeIsRenamed` | internal/services/cloudsql/mysqlwire/translate.go:170-186 | without such a hint only the name changes |
| `MySqlTypes.TypesAreNamed` | internal/services/cloudsql/mysqlwire/translate.go:213-236 | these nineteen names and no others are replaced |
| `MySqlTypes.OptionIsDropped` | internal/services/cloudsql/mysqlwire/translate.go:188-196 | ENGINE, CHARSET, COLLATE, AUTO_INCREMENT, ROW_FORMAT and COMMENT in any case with `=` and a value are dropped, with the blanks in front and nothing else |
| `MySqlTypes.CharsetIsDropped` | internal/services/cloudsql/mysqlwire/translate.go:243-290 | so is DEFAULT CHARSET |
| `MySqlTypes.ModifierIsDropped` | internal/services/cloudsql/mysqlwire/translate.go:105-112 | UNSIGNED and ZEROFILL in any case are dropped with one blank behind them |
| `MySqlTypes.OtherWordIsKept` | internal/services/cloudsql/mysqlwire/translate.go:198-199 | every other word is written as it stands |
| `MySqlTypes.KeyIsRead` | internal/services/cloudsql/mysqlwire/translate.go:140-147 | PRIMARY and KEY in any case, with any blanks between, are one key |
| `MySqlTypes.AutoIsRead` | internal/services/cloudsql/mysqlwire/translate.go:113-139 | AUTO_INCREMENT in any case without a value is a keyword that takes the blanks behind it along |
| `MySqlTypes.OnlyTypeChanges` | internal/services/cloudsql/mysqlwire/translate.go:24-202 | a statement whose only word of the vocabulary is a type comes out with that name and its hint replaced, byte for byte |
| `MySqlTypes.OnlyNameChanges` | internal/services/cloudsql/mysqlwire/translate.go:24-202 | the same without a hint |
| `MySqlTypes.OnlyOptionGoes` | internal/services/cloudsql/mysqlwire/translate.go:24-202 | a statement whose only word of the vocabulary is an option comes out without it and the blanks in front |
| `MySqlOptions.OptionBehindParenthesis` | internal/services/cloudsql/mysqlwire/translate.go:188-196 | `) WORD=value` becomes `)` for each option word in any case |
| `MySqlRegions.ForeignIsUnchanged` | internal/services/cloudsql/mysqlwire/translate.go:24-202 | a statement with no unprotected word of the vocabulary comes out byte for byte |
| `MySqlRegions.BlankEndsLine` | internal/services/cloudsql/mysqlwire/translate.go:303-365 | a region that ends in a blank is at the end of the text or a line comment before its newline |
| `MySqlRegions.SewingIsRunning` | internal/services/cloudsql/mysqlwire/translate.go:38-201 | for every statement, trimming reaches only text made behind the last protected region |
| `MySqlRegions.SewnRegions` | internal/services/cloudsql/mysqlwire/translate.go:38-66 | regions are sewn into the output in their order |
| `MySqlProtected.RegionsAreMetIff` | internal/services/cloudsql/mysqlwire/translate.go:179-183 | for every statement, the translator copies exactly the regions a byte-by-byte scan finds (a scan that passes over table options, except inside size hints), at the same places, if and only if no protected region opens inside a size hint |
| `MySqlProtected.RegionsAreKept` | internal/services/cloudsql/mysqlwire/translate.go:38-201 | for every statement the translation is made text with the regions met in it, byte for byte and in order; those are all the protected regions, save option values, if and only if no region opens in a size hint |
| `MySqlProtected.HintSwallowsRegion` | internal/services/cloudsql/mysqlwire/translate.go:179-183 | `INT(1'')` becomes `INTEGER`: its quoted text is found by the scan and met by no turn of the translator |
| `MySqlReread.RegionIn` | internal/services/cloudsql/mysqlwire/translate.go:303-365 | a region copied into another text ends at the same byte there, unless its own quote follows |
| `MySqlReread.FoundIff` | internal/services/cloudsql/mysqlwire/translate.go:38-66 | a scan of any text made of bytes and regions finds exactly those regions, where they were put, if and only if no two neighbours join |
| `MySqlRereadTheorems.RereadIff` | internal/services/cloudsql/mysqlwire/translate.go:24-202 | for every statement, reading the translation again finds exactly the regions copied into it if and only if nowhere do a dash and a dash, a slash and a star, or two strings in the same quotes come to stand side by side |
| `MySqlRejoined.DashesBecomeComment` | internal/services/cloudsql/mysqlwire/translate.go:105-112 | `-UNSIGNED -` has no protected region and becomes `--`, a comment |
| `MySqlRejoined.StringsBecomeOne` | internal/services/cloudsql/mysqlwire/translate.go:105-112 | `'a'UNSIGNED 'b'` has two strings and becomes `'a''b'`, one string |
| `MySqlNesting.NestIffCloses` | internal/services/cloudsql/mysqlwire/translate.go:68-91 | the contents of a parenthesis are found if and only if it is closed |
| `MySqlNesting.ColumnsAreAll` | internal/services/cloudsql/mysqlwire/translate.go:68-91 | every well-nested list is its columns joined by commas |
| `MySqlColumns.StreamingIsPerColumn` | internal/services/cloudsql/mysqlwire/translate.go:24-202 | for every nesting of parentheses and every state, the pass with one pending flag and one key flag prints what columns with their own memory print |
| `MySqlColumns.ColumnListIsPerColumn` | internal/services/cloudsql/mysqlwire/translate.go:68-91 | so it does on every parenthesised list, whatever was pending before |
| `MySqlRule.ColumnsAreIndependent` | internal/services/cloudsql/mysqlwire/translate.go:68-91 | each column comes out as it would alone: an AUTOINCREMENT never moves to another column |
| `MySqlRule.ListIsPerColumn` | internal/services/cloudsql/mysqlwire/translate.go:24-202 | the same for a list anywhere in a statement |
| `MySqlNesting.StatementIsPerColumn` | internal/services/cloudsql/mysqlwire/translate.go:24-202 | in every statement, a parenthesis that is closed holds columns, and the translation prints them one by one |
| `MySqlRule.MemoryIsOuter` | internal/services/cloudsql/mysqlwire/translate.go:26-36 | nothing is ever remembered from deeper than the current depth |
| `MySqlRule.PartKeepsMemoryIff` | internal/services/cloudsql/mysqlwire/translate.go:68-91 | a nested parenthesis clears the memory of the column around it if and only if it uses the same memory |
| `MySqlRule.AutoBeforeKey` | internal/services/cloudsql/mysqlwire/translate.go:113-159 | AUTO_INCREMENT before PRIMARY KEY: the exact output, undisturbed and disturbed |
| `MySqlRule.KeyBeforeAuto` | internal/services/cloudsql/mysqlwire/translate.go:113-159 | PRIMARY KEY before AUTO_INCREMENT: the exact output, undisturbed and disturbed |
| `MySqlRule.AutoAlone` | internal/services/cloudsql/mysqlwire/translate.go:68-91 | AUTO_INCREMENT without PRIMARY KEY is dropped with its blanks |
| `MySqlRule.NoAuto` | internal/services/cloudsql/mysqlwire/translate.go:140-159 | a column without AUTO_INCREMENT never gets one |
| `MySqlRuleExact.AutoLandsOnItsKeyIff` | internal/services/cloudsql/mysqlwire/translate.go:18-23 | the documented reordering happens if and only if no AUTO_INCREMENT waits in a parenthesis between keyword and key |
| `MySqlRuleExact.AutoStaysBehindItsKeyIff` | internal/services/cloudsql/mysqlwire/translate.go:122-130 | the keyword stays behind its key if and only if no PRIMARY KEY is nested between the two |
| `MySqlWitness.SpelledIsCut` | internal/services/cloudsql/mysqlwire/translate.go:38-201 | keywords and punctuation written out are cut back to themselves |
| `MySqlWitness.NestedAutoIsLost` | internal/services/cloudsql/mysqlwire/translate.go:131-132 | `(AUTO_INCREMENT (AUTO_INCREMENT)PRIMARY KEY)` becomes `(()PRIMARY KEY)` |
| `MySqlWitness.NestedKeyDropsAuto` | internal/services/cloudsql/mysqlwire/translate.go:126-132 | `(PRIMARY KEY (PRIMARY KEY) AUTO_INCREMENT)` becomes `(PRIMARY KEY (PRIMARY KEY))` |
| `PgRegions.SkipQuoted` | internal/services/cloudsql/pgwire/translate.go:90-118 | ends at the first quote that is not doubled, or at the end |
| `PgRegions.DollarQuoteTag` | internal/services/cloudsql/pgwire/translate.go:122-134 | recognises `$tag$` and gives the tag and its end |
| `PgSplit.CutRegion` | internal/services/cloudsql/pgwire/translate.go:240-293 | the one-byte automaton passes over a whole protected region |
| `PgSplit.SplitCommands` | internal/services/cloudsql/pgwire/translate.go:240-293 | the flushing loop computes the automaton's split |
| `PgSplitTheorems.SplitIsStable` | internal/services/cloudsql/pgwire/translate.go:240-293 | splitting, joining with newline and semicolon and splitting again gives the same statements |
| `PgSplitTheorems.RegionsAreNeverCut` | internal/services/cloudsql/pgwire/translate.go:240-293 | no semicolon inside a string, quoted identifier or dollar quote separates statements |
| `PgStatements.SplitIsBetween` | internal/services/cloudsql/pgwire/translate.go:240-293 | for every payload the statements are the texts between neighbouring separators, without the white space around them, in order; every text left out is blank |
| `PgStatements.SeparatorsAreAll` | internal/services/cloudsql/pgwire/translate.go:240-293 | the separators are all the semicolons outside protected regions and line comments |
| `PgStatements.TextBetween` | internal/services/cloudsql/pgwire/translate.go:240-293 | text k runs from behind separator k-1 up to separator k |
| `PgSplit.CutLineComment` | internal/services/cloudsql/pgwire/translate.go:240-293 | nor one inside a line comment |
| `PgRewrite.ReadNumber` | internal/services/cloudsql/pgwire/translate.go:66-75 | the digit loop behind `$` gives the number written, wrapped to an int64 |
| `PgRewrite.OrderWraps` | internal/services/cloudsql/pgwire/translate.go:66-80 | the order holds the numbers written, each wrapped |
| `PgRewrite.RewriteSQL` | internal/services/cloudsql/pgwire/translate.go:43-88 | the loop renders the tokens with `?` for each `$N` and returns the order of the N |
| `PgRewrite.RewrittenLexes` | internal/services/cloudsql/pgwire/translate.go:43-88 | reading the rewritten text gives the tokens with slots: no region opens, closes or moves |
| `PgTranslate.StripCastsLoop` | internal/services/cloudsql/pgwire/translate.go:151-180 | the loop drops every `::` with the identifier bytes and blanks behind it, outside quotes |
| `PgTranslate.ReplaceKeywords` | internal/services/cloudsql/pgwire/translate.go:184-224 | the loop replaces whole words outside quotes |
| `PgKeywords.WordIsReplaced` | internal/services/cloudsql/pgwire/translate.go:26-36 | a whole word outside quotes in any case: SERIAL and BIGSERIAL become INTEGER PRIMARY KEY AUTOINCREMENT, BYTEA becomes BLOB, BOOLEAN becomes BOOLEAN, and every other word stays |
| `PgKeywords.ByteIsKept` | internal/services/cloudsql/pgwire/translate.go:184-224 | any other byte outside quotes stays, be it part of no word or in the middle of one |
| `PgKeywords.StartsIff` | internal/services/cloudsql/pgwire/translate.go:226-236 | a word starts at an ASCII letter or underscore with no letter, of Latin-1 too, digit or underscore in front |
| `PgTranslate.RewriteSlots` | internal/services/cloudsql/pgwire/translate.go:43-88 | the first pass adds one `?` for each entry of the order |
| `PgTranslate.StripCastsSlots` | internal/services/cloudsql/pgwire/translate.go:151-180 | the second pass adds and loses none |
| `PgTranslate.ReplaceSlots` | internal/services/cloudsql/pgwire/translate.go:184-224 | the third pass adds and loses none |
| `PgTranslate.Translate` | internal/services/cloudsql/pgwire/translate.go:26-36 | for every input the `?` bytes of the output are those of the input plus the length of the order |
| `PgTranslate.ExpandArgs` | internal/services/cloudsql/pgwire/extended.go:96-111 | the expansion loop picks one value per slot, or reports an index out of range |
| `PgTranslate.ParametersKeepMeaning` | internal/services/cloudsql/pgwire/extended.go:78-111 | for a statement with no literal `?` outside protected regions: when every N written has a value, filling the slots with the arguments equals filling each `$N` with value N; when one has none the error is reported, unless all wrapped numbers are in range and one N exceeds int64 |
| `PgTranslate.SlotsMatchOrderIff` | internal/services/cloudsql/pgwire/translate.go:43-88 | the rewritten statement has as many slots outside protected regions as the order has entries if and only if the statement has no literal `?` there |
| `PgTranslate.InferParamOIDs` | internal/services/cloudsql/pgwire/extended.go:129-146 | one OID per announced parameter, declared ones kept, the rest 0 |
| `PgTranslate.AnnouncedBindingsFit` | internal/services/cloudsql/pgwire/extended.go:129-146 | binding as many values as announced never reaches the range error if and only if every entry of the order is at least 1 |
| `PgTranslate.BindingsFitIff` | internal/services/cloudsql/pgwire/extended.go:78-146 | the same for the numbers written: each must be at least 1 once wrapped, which up to int64 is the number itself |
| `PgTranslate.PlaceholderBinds` | internal/services/cloudsql/pgwire/translate.go:66-80 | a lone `$n` gets the value of n wrapped: 2^64+1 is taken for 1, and 2^64 is out of range whatever is bound |
| `PgSlots.StripKeepsMarks` | internal/services/cloudsql/pgwire/translate.go:151-180 | the second pass keeps every `?` inside or outside quotes, in order |
| `PgSlots.ReplaceKeepsMarks` | internal/services/cloudsql/pgwire/translate.go:184-224 | so does the third |
| `PgSlots.SlotsStayPut` | internal/services/cloudsql/pgwire/translate.go:26-36 | for every statement the k-th `?` of the translation is outside quotes if and only if the k-th `?` after the first pass is, and they number the `?` bytes of the statement plus the entries of the order |
| `PgPlain.UnchangedIffNoParameter` | internal/services/cloudsql/pgwire/translate.go:43-88 | the first pass changes a statement if and only if it has a parameter outside protected regions |
| `PgPlain.UnchangedIffNoCast` | internal/services/cloudsql/pgwire/translate.go:151-180 | the second pass changes a text if and only if it has a cast outside quotes |
| `PgPlain.CastsAreGone` | internal/services/cloudsql/pgwire/translate.go:151-180 | for every text the second pass leaves no `::` outside quotes |
| `PgPlain.PlainIsUnchanged` | internal/services/cloudsql/pgwire/translate.go:26-36 | a statement without parameters, casts or replaced keywords comes out byte for byte |
| `PgCasts.StripDropsTypesIff` | internal/services/cloudsql/pgwire/translate.go:149-180 | the second pass drops just each `::` outside quotes with one identifier, as documented, if and only if at every cast it meets no space stands right behind that identifier |
| `PgCasts.WordsBehindTypeAreLost` | internal/services/cloudsql/pgwire/translate.go:151-180 | of `a::` with any type and, behind a space, any words, only the `a` is left |
| `PgCasts.FromIsLost` | internal/services/cloudsql/pgwire/translate.go:151-180 | `a::int FROM t` becomes `a` |
| `PgDollar.DollarIsStrippedIff` | internal/services/cloudsql/pgwire/translate.go:151-180 | a dollar quote the second pass meets outside quotes comes through unchanged if and only if the pass meets no `::` in it |
| `PgDollar.DollarIsReplacedIff` | internal/services/cloudsql/pgwire/translate.go:184-224 | a dollar quote the third pass meets outside quotes comes through unchanged if and only if the pass meets no word in it that it replaces by another |
| `PgDollarKept.DollarIsKeptIff` | internal/services/cloudsql/pgwire/translate.go:26-36 | a dollar quote comes through both passes in turn unchanged if and only if both hold of the quote as it was |
| `PgDollar.DollarQuoteIsRewritten` | internal/services/cloudsql/pgwire/translate.go:184-224 | `$$BYTEA$$` is one protected region and becomes `$$BLOB$$` |
| `Concat.FindConcat` | internal/services/bigquery/bigquery.go:612 | the first place where the name stands as a word with a parenthesis behind it |
| `Concat.SplitTopLevelArgs` | internal/services/bigquery/bigquery.go:654-701 | the loop with three quote flags computes the scan |
| `ConcatArgs.SplitIsTopLevel` | internal/services/bigquery/bigquery.go:654-701 | the end is the parenthesis that matches the opening one, or there is none; the arguments are exactly the trimmed texts between commas at depth one outside quotes |
| `ConcatArgs.BoundsAreAll` | internal/services/bigquery/bigquery.go:654-701 | no such comma is missed |
| `Concat.TurnShrinks` | internal/services/bigquery/bigquery.go:629-650 | every replacement strictly lowers the number of spellings of the name, although the text may grow |
| `Concat.RewriteConcat` | internal/services/bigquery/bigquery.go:629-650 | terminates on every text, with no call left or a first one that has no matching parenthesis |
| `ConcatCalls.MatchIff` | internal/services/bigquery/bigquery.go:612 | a call is the word in any case, with no identifier byte before it and only white space before its parenthesis, and each call is matched |
| `ConcatCalls.NoCallIsLeft` | internal/services/bigquery/bigquery.go:629-650 | when the loop stops on a text with a call, the first one has no matching parenthesis |
| `ConcatCalls.TurnBars` | internal/services/bigquery/bigquery.go:629-650 | a turn replaces the first call by its trimmed arguments in parentheses, with ` \|\| ` between them |
| `ConcatTrees.ReadsExpr` | internal/services/bigquery/bigquery.go:654-701 | the scan passes over a printed expression and is back at its depth |
| `ConcatTrees.ScanArguments` | internal/services/bigquery/bigquery.go:654-701 | splitting a printed argument list gives the printed arguments |
| `ConcatTheorems.QuietBefore` | internal/services/bigquery/bigquery.go:629-650 | the pattern matches nowhere before the first call of the tree |
| `ConcatTheorems.ConvertPrints` | internal/services/bigquery/bigquery.go:629-650 | replacing that call in the text is replacing it in the tree |
| `ConcatTheorems.TurnConverts` | internal/services/bigquery/bigquery.go:629-650 | one turn on a printed tree prints the tree with its first call turned into a chain, or finds none |
| `ConcatTheorems.RewritesToChains` | internal/services/bigquery/bigquery.go:629-650 | rewriting a printed tree gives the printed tree with every call a chain |
| `ConcatGrammar.GroupedIsRegrouped` | internal/services/bigquery/bigquery.go:625-650 | grouping the operands and operators of a level by how tightly they bind gives every tree of the grammar back |
| `ConcatGrammar.RowsAreReadOneWay` | internal/services/bigquery/bigquery.go:625-650 | so a row of operands and operators is read as one tree only |
| `ConcatMeaning.RewrittenIsRead` | internal/services/bigquery/bigquery.go:629-650 | the rewritten text of a tree of the grammar is the text of that tree with its calls turned into chains and each level regrouped, again a tree of the grammar |
| `ConcatMeaning.TightKeepsValue` | internal/services/bigquery/bigquery.go:629-650 | if every CONCAT joins tightly that tree has the value of the original, under NULL propagation and every reading of names, functions and operators |
| `ConcatLoose.PlainArgumentsJoin` | internal/services/bigquery/bigquery.go:625-650 | arguments that are atoms, calls, parenthesised or CONCATs always join tightly |
| `ConcatLoose.ValueIsKeptIff` | internal/services/bigquery/bigquery.go:645-648 | for every tree of the grammar: the regrouped tree has the value of the original under every reading if and only if in each CONCAT of two or more no operator of the first argument binds looser than `\|\|`, and those of the others bind tighter or are `\|\|` |
| `ConcatLoose.LooseTextChangesValue` | internal/services/bigquery/bigquery.go:645-648 | `CONCAT(x = y, z)` becomes `(x = y \|\| z)`; with `=` looser than `\|\|` the first makes "0z", the second "0" |
| `ConcatText.PrintIsRow` | internal/services/bigquery/bigquery.go:625-650 | the text of a tree is that of its row of operands and operators |
| `ConcatText.TextDeterminesTree` | internal/services/bigquery/bigquery.go:625-650 | two trees of the grammar whose leaves are names, numbers or quoted literals and whose operators are single tokens are the same if their texts are |
| `ConcatTextTheorems.RewrittenDenotes` | internal/services/bigquery/bigquery.go:629-650 | the rewritten text denotes one tree, that of the original with its calls chained and regrouped |
| `ConcatTextTheorems.TextKeepsValueIff` | internal/services/bigquery/bigquery.go:645-648 | for every text of an expression: rewriting keeps its value under every reading if and only if every CONCAT in it joins tightly |
| `ConcatTextTheorems.LooseTextIsLoose` | internal/services/bigquery/bigquery.go:645-648 | `CONCAT(x = y, z)` denotes one tree only and, with `=` looser than `\|\|`, does not keep its value |
| `Documents.BatchActs` | internal/services/firestore/firestore.go:193-240 | a batch acts on each field of each document as one composed action |
| `Documents.CommitIsIdempotent` | internal/services/firestore/firestore.go:193-240 | running a batch twice gives the documents and fields of running it once, for any mix of masked updates, replacements and deletes |
| `Documents.TimesAreKept` | internal/services/firestore/firestore.go:205-230 | a document keeps its creation time through every update, unless the batch deletes it in between; its update time is that of the batch if it was written, and otherwise it is unchanged |
| `Documents.ChangesAreTrue` | internal/services/firestore/firestore.go:242-247 | for every name not deleted in the batch, the changes sent leave a reader with what is stored |
| `Documents.ResurrectedIsDeletedYetStored` | internal/services/firestore/firestore.go:242-247 | a stored name deleted and then written is exactly one announced as deleted yet stored |
| `Documents.BelievedIsStoredIff` | internal/services/firestore/firestore.go:242-247 | a reader of all messages holds the stored documents if and only if no stored name was deleted and then written |
| `Documents.ToldOf` | internal/services/firestore/firestore.go:242-247 | name by name: only a resurrected document is told wrongly, as gone although it is stored |
| `Documents.DeleteThenWriteMisleads` | internal/services/firestore/firestore.go:242-247 | a concrete batch that misleads |
| `Listeners.ChangeKeepsSync` | internal/services/firestore/listen.go:265-296 | a broadcast change keeps every open listener in step with the documents that match each target |
| `Listeners.DeleteKeepsSync` | internal/services/firestore/listen.go:299-326 | so does a broadcast delete |
| `Listeners.InSyncIffSpared` | internal/services/firestore/listen.go:265-326 | a listener in step with the messages of a Commit is in step with the store if and only if it was abandoned or none of its targets matches a resurrected document |
| `Listeners.InSyncIffUndisturbed` | internal/services/firestore/firestore.go:200-203 | a listener that is told nothing stays in step if and only if it was abandoned or each of its targets matches the same documents before and after |
| `Listeners.AddStarts` | internal/services/firestore/listen.go:142-154 | adding a target starts its view empty and leaves the others alone |
| `Listeners.MatchesIff` | internal/services/firestore/listen.go:38-50 | a collection target watches exactly the documents named by its path, a slash and an id without a slash |
| `Listeners.InSyncShows` | internal/services/firestore/listen.go:38-50 | so the view of an open target in step holds just these of the stored documents, or those it names, as they are stored |
| `Listeners.HeardThen` | internal/services/firestore/listen.go:217-232 | messages sent one after another arrive in order, and a listener gives up exactly when the 65th would wait |
| `Firestore.MergeMasked` | internal/services/firestore/firestore.go:211-218 | the mask loop sets or removes exactly the paths of the mask |
| `Firestore.MatchedIds` | internal/services/firestore/listen.go:270-280 | the targets of a listener that match a name, each once |
| `Firestore.Service.BroadcastChange` | internal/services/firestore/listen.go:265-296 | every listener with a matching target hears of the change once, with all targets that match, then NO_CHANGE, the others nothing; after the loop all believe the change |
| `Firestore.Service.BroadcastDelete` | internal/services/firestore/listen.go:299-326 | the same for a delete |
| `Firestore.Service.ViewsAreShown` | internal/services/firestore/listen.go:38-50 | in every state between calls, every view of an open stream holds just the stored documents in its collection, or those it names |
| `Firestore.Service.CreateDocument` | internal/services/firestore/firestore.go:109-127 | error cases in order; store and listeners stay in step, and each listener is told |
| `Firestore.Service.UpdateDocument` | internal/services/firestore/firestore.go:129-162 | merges all fields given when there is a mask, replaces otherwise; store and listeners stay in step, and each listener is told |
| `Firestore.Service.DeleteDocument` | internal/services/firestore/firestore.go:164-173 | removes or reports missing; store and listeners stay in step, and each listener is told |
| `Firestore.Service.ApplyWrites` | internal/services/firestore/firestore.go:193-240 | the write loop stops at the first write that cannot be encoded; store, changes and deletes are those of the writes done |
| `Firestore.Service.Commit` | internal/services/firestore/firestore.go:185-252 | after a successful Commit all listeners are in step if and only if no target of an open one matches a document the batch resurrects; a failed Commit keeps its earlier writes and sends nothing, and all are in step if and only if each target of an open one matches the same documents before and after; a listener with room for two messages a write stays open |
| `Firestore.Service.SnapshotQuery` | internal/services/firestore/firestore.go:75-91 | the snapshot of a collection target is one change for each of its documents, and no other message |
| `Firestore.Service.SnapshotDocuments` | internal/services/firestore/listen.go:169-192 | the snapshot of a document target is one change for each stored name and one delete for each missing one |
| `Firestore.Service.AddListenTarget` | internal/services/firestore/listen.go:119-215 | rejects what is unsupported; otherwise the listener is sent ADD, the snapshot, CURRENT and NO_CHANGE, and holds the documents in the collection itself, or those named; no other listener changes |
| `Firestore.Service.RemoveTarget` | internal/services/firestore/listen.go:99-112 | the target goes and REMOVE is sent; no other listener changes |
| `FilterLexer.CheckNumber` | internal/services/logging/filter.go:148-161 | digits with an optional sign in front |
| `FilterLexer.Unescape` | internal/services/logging/filter.go:163-174 | the loop replaces each backslash pair by its second byte |
| `FilterLexer.UnescapeEscaped` | internal/services/logging/filter.go:163-174 | escaping and unescaping any text gives it back |
| `FilterLexer.Tokenize` | internal/services/logging/filter.go:78-138 | the loop reads one token at a time or fails |
| `FilterLexer.NumbersAreNeverTokens` | internal/services/logging/filter.go:113-142 | no number token is ever produced: an unquoted number cannot be written |
| `FilterLexer.IdentsAreWords` | internal/services/logging/filter.go:113-132 | every identifier token is a word the tokeniser reads back |
| `LogFilter.NumberFrom` | internal/services/logging/filter.go:245-249 | the digit loop in wrapping bytes and machine integers |
| `LogFilter.NumericCmp` | internal/services/logging/filter.go:321-337 | the six relations and no other operator |
| `LogFilter.BuildPredicate` | internal/services/logging/filter.go:236-319 | a triple is built if and only if it is a comparison of the language, and then tests exactly that comparison |
| `SeverityRanks.EntryRankIs` | internal/services/logging/filter.go:251-258 | the rank of an entry is that of its severity in any case, 0 to 800 by hundreds, and 0 if it has no name |
| `SeverityRanks.SeverityCompares` | internal/services/logging/filter.go:236-262 | comparing with a named severity compares these ranks |
| `SeverityRanks.OnlyNamesAndNumbers` | internal/services/logging/filter.go:238-245 | a severity that is neither a name nor a number is no comparison |
| `FilterFields.LabelCompares` | internal/services/logging/filter.go:287-303 | a label comparison tests that label of the resource; what is no text, or missing, reads as empty |
| `FilterFields.TimestampCompares` | internal/services/logging/filter.go:305-316 | a timestamp comparison tests the entry's instant |
| `FilterFields.TextsHaveTwoRelations` | internal/services/logging/filter.go:263-303 | log names, resource types and labels have equality and inequality only |
| `FilterFields.NameIsOneToken` | internal/services/logging/filter.go:113-146 | letters, digits, underscores, slashes, dots and dashes, not starting with a digit, dot or dash, are one identifier token, unless they are AND, OR or NOT |
| `FilterFields.OtherBytesFail` | internal/services/logging/filter.go:83-138 | a byte that starts no token, such as a parenthesis or a digit, is an error |
| `FilterFields.OrAndNotFail` | internal/services/logging/filter.go:119-125 | so are OR and NOT in any case |
| `LogFilter.ReadPrinted` | internal/services/logging/filter.go:236-319 | every valid comparison is read back from its printed field, operator and value |
| `LogFilter.Parser.ParsePredicate` | internal/services/logging/filter.go:219-233 | takes three tokens if and only if they form a comparison |
| `LogFilter.Parser.ParseExpr` | internal/services/logging/filter.go:198-217 | takes the longest run of comparisons joined by AND and tests their conjunction, or is stuck where one is missing |
| `LogFilter.NoConjunction` | internal/services/logging/filter.go:198-233 | a missing comparison or text behind the last one is an error |
| `LogFilter.ParseFilter` | internal/services/logging/filter.go:41-59 | a text is accepted if and only if it is blank or its tokens are comparisons joined by AND; the predicate selects exactly the entries that satisfy all |
| `FilterTheorems.LexPrinted` | internal/services/logging/filter.go:78-138 | every printed filter is read back as its tokens, whatever its values contain |
| `FilterTheorems.FilterRoundTrip` | internal/services/logging/filter.go:41-319 | every non-empty list of valid comparisons, printed with any layout, is accepted and selects exactly the entries satisfying all of them |
| `FilterCanonical.AcceptedIsPrinted` | internal/services/logging/filter.go:41-319 | conversely every accepted filter selects what the canonical print of its comparisons selects |
| `SeverityNumbers.NumberIsMeantIff` | internal/services/logging/filter.go:245-249 | the number compared with is the one written if and only if it is an int64 and the sign's contribution vanishes in 64 bits |
| `SeverityNumbers.UnsignedNumberIsMeant` | internal/services/logging/filter.go:245-249 | without a sign exactly the int64 values are right |
| `SeverityNumbers.SignedNumberIsNeverMeant` | internal/services/logging/filter.go:245-249 | with a sign and up to sixteen digits it is never the number written |
| `SeverityNumbers.NegativeSeverity` | internal/services/logging/filter.go:245-249 | the text `severity>="-5"` is accepted as a filter and selects no entry |
| `SeveritySelections.SelectsAsWrittenIff` | internal/services/logging/filter.go:236-262 | a number selects the entries that the number written would if and only if no rank of a severity tells the two apart |
| `SeveritySelections.SignedSelectsIff` | internal/services/logging/filter.go:236-262 | with a sign and one to sixteen digits it does so if and only if the number written is out of reach of the ranks in the same way as one above them all |
| `SeveritySelections.PlusIsMeantIff` | internal/services/logging/filter.go:245-249 | behind a plus sign the number is the one written if and only if it is an int64 with at least 64 digits |

## Left out

- HTTP and gRPC handlers, routing, JSON and error texts: each failure is one status value.
- Counters are unbounded: the wrap-around of the uint64 ack, message and generation counters is not modelled.
- Base64 of message data is taken as an inverse pair and left out; MD5, CRC32C and etags of objects are left out.
- White space and case are ASCII in `TrimSpace` and `ToUpper`; Unicode folding is not modelled.
- Read errors of request bodies, and store failures other than a missing key.
- Push delivery and pusher start and stop; topic deletion and listing; `/admin/reset`; restarts.
- Interleavings finer than one locked section (Pub/Sub) or one request (storage, Firestore); in storage the session lookup and its use are one step.
- Multipart uploads, the XML interface, downloads and bucket seeding: they would only add easy members.
- Listeners are values in a sequence, and a send that overflows closes them; the race between closing a channel and sending on it is not modelled, nor is the order in which a Go channel is drained beyond `Drain`.
- Queries beyond a collection and their field filters; document values and `BatchWrite`.
- decodeParam and the statement and portal maps of the extended protocol; `commandTag`, `isSelectish`.
- PgTranslate.ParametersKeepMeaning: takes at most 2^63-1 values, as many as a Go slice can hold, and no literal `?` outside protected regions; with one, arguments and slots differ in number (`SlotsMatchOrderIff`).
- The regular expressions of the other BigQuery rewrites; `CONCAT` in the model is found by the pattern `\bCONCAT\s*\(` without case.
- ConcatTheorems.RewritesToChains: speaks of printed trees whose leaves and operators hold no text that reads as a CONCAT call.
- ConcatTextTheorems.TextKeepsValueIff: an operator is one token without blanks, so `IS NOT` is not one, and a leaf is one name, number or quoted literal.
- ConcatLoose.ValueIsKeptIff: reads the original and the rewritten text with one table of binding strengths, any table; unary and ternary operators and operators that group to the right are not in the trees.
- SeverityNumbers.SignedNumberIsNeverMeant: sixteen digits is where 64-bit wrap-around begins to matter; beyond it `NumberIsMeantIff` gives the exact condition.
- Filter error messages and positions; entries' other fields.
- IAM, KMS, Secret Manager, Monitoring, Cloud SQL administration, Cloud Tasks, Scheduler and Cloud Run.
