# Hexmagnet: models and proofs

Hexmagnet crawls the BitTorrent distributed hash table, classifies and enriches what it finds, and
serves searches. These Dafny files model the parts of it that carry real guarantees, in the form the
program gives them, and prove those guarantees:

- **The in-memory message queue** (`QueueTypes`, `DeliveryProtocol`, `MemoryQueue`): a ring per topic,
  offsets per group, a consumer that replays the ring and then drains a live channel, snapshot and
  recovery. The protocol interleaves produce, register, replay, acknowledge, stop, restart, crash,
  save and recover.
- **Resumable batch jobs and the shared job slot** (`BatchTypes`, `JobProtocol`, `BatchJob`): keyset
  pages over a table below a barrier, a persisted cursor, failures, panics, crashes, reloads and
  deletions, with one slot for all jobs.
- **The webhook delivery queue** (`Channels`, `WebhookProtocol`, `WebhookPublisher`): publishing while
  the queue is resized under a worker that may still hold the old one.
- **The torrent retry queue** (`RetryProtocol`, `RetryQueue`): counted failures, dispatch leases,
  touches, removals, evictions, and a retry budget.
- **The full-text formats** (`LexerBase`, `TsvectorFormat`, `TsvectorPositions`, `Tsvector`,
  `Tokenizer`, `TsqueryFormat`, `Tsquery`, `TsqueryMeaning`, `TsqueryCompiler`): search vectors and their text form, the
  tokenizer, and the compiler from what users type to queries, with what both say about a document.
- **The search SQL** (`SearchQuery`, `SearchFilters`, `SearchMeaning`, `SearchBuilder`): numbered
  placeholders and their arguments, the facet queries made by dropping one clause and renumbering the
  others, and what the queries find, read off the SQL and off the search parameters.
- **Smaller cores**: identifiers and distances (`Int160`), compact node lists (`NodeCodec`), rank
  fusion (`RankFusion`), log rotation (`LogNames`, `FileRotator`), the date scanner (`DateScanner`).

`Wrappers`, `Strings`, `Decimal` and `Library` hold what the components share; `Library` stands for
ranging over a map in any order and for the standard sort.

Where a component is concurrent it has two layers. A protocol module describes every step any
participant can take, on values, and its theorems are about all runs. A second module has the classes
and methods of the program with their loops and fields, for one caller at a time. How closely the
layers are tied differs. In the retry queue the class keeps the protocol state beside its table, and
every method is proved to take steps of the protocol. In the memory queue, methods and steps use the
same functions for the window, the replay, the offset and the offer to a channel. Batch jobs share
the records, the pages and the invariant about handled rows; the webhook queue shares only its
capacity rule. There the match of a method and a step is by reading.

## What turned out otherwise

Some promises of the code do not hold on all inputs. Each has a lemma with the exact condition, and
the code is modelled as it is.

- A replay that is cancelled half-way goes on to the live loop, which may acknowledge a later message
  and leave the abandoned ones behind for good; a message that meets a full channel is left behind
  when a later one is acknowledged before it was replayed. `NothingLeftBehindExactly` says for every
  run and every message that these are the only two ways, `GapFreeExactly` when the acknowledged
  numbers are one interval; `CancelledReplayCanLoseMessages` and `OverflowCanLoseAMessage` are runs.
- A saved state holds the live offset table, so offsets can be newer than the messages beside them;
  after recovery new messages are skipped (`RecoveryIsConsistentExactly`, `LateOffsetsTearASave`).
- Resizing the webhook queue is documented to lose no pending event; it loses those that, less the
  ones delivered meanwhile, do not fit the new capacity (`ResizeLosesNothingIffTheyFit`). A worker can
  come to wait on a retired queue for good exactly when two of them are in the delivery loop, as they
  are when stopping timed out (`CanStrandExactly`, `SecondWorkerCanBeStranded`).
- Discarding a job is final exactly when no goroutine is about to save (`DiscardIsFinalExactly`). Rows
  at or below the epoch cursor are counted but never listed, so that a job ends with its count at its
  total exactly when there are none (`CountReachesTotalExactly`, `Run`).
- A touch clears the dispatch lease, so that a retry count can repeat and the limit alone does not
  bound the dispatches (`BudgetHolds`, `TouchLetsACountRepeat`). A failure reported while its entry is
  between listing and marking is forgotten (`DispatchCountsExactly`, `FailureDuringScanIsForgotten`).
- A label at position zero does not survive printing (`RoundTripExactly`).
- A negation typed before a phrase of several words reaches the first of them only
  (`NegationIsOppositeExactly`).
- Rows that the sort keys do not tell apart stay unordered when the last key is of an unknown field
  and another one is not (`TiesAreBrokenExactly`).
- A date typed month first is read back only when its day cannot be a month or is the same number;
  otherwise the two are exchanged (`MonthFirstIsFoundExactly`).
- The has-next query asks for a negative offset when offset and limit overflow 32 bits
  (`HasNextSkipsOnePageExactly`).
- Parsing log file names panics on exactly one name (`ParsePanicsExactly`).
- The 29th of February of every fourth year counts as valid, so 1900-02-29 does (`ValidExactly`).
- The date scan can miss a date that is there, in a text such as 7 2020-01-02 (`DateCanBeMissed`). A
  date is found exactly when the scan lands on one (`FoundExactly`); it always lands on a date that no
  number with a separator stands before (`UnhiddenIsFound`).

## Model

| member | source | states |
|---|---|---|
| `QueueTypes.PushKeepsWindow` | internal/queue/memoryqueue/queue.go:103-115 | however many messages are produced, the ring holds exactly the last capacity - 1 of them, with consecutive numbers |
| `QueueTypes.ReplayIsSuffix` | internal/queue/memoryqueue/consumer.go:119-129 | what is replayed is the gap-free run of ring messages from the larger of the oldest message and the offset |
| `DeliveryProtocol.AcknowledgementsIncrease` | internal/queue/memoryqueue/consumer.go:196-218 | in every run, from one recovery to the next, each acknowledged number is larger than the one before, so none is acknowledged twice; after a crash none below the offset that was saved is acknowledged again |
| `DeliveryProtocol.RunKeepsSound` | internal/queue/memoryqueue/consumer.go:62-142 | ring, channel, replay and offset stay consistent in every reachable state |
| `DeliveryProtocol.AcknowledgedExactly` | internal/queue/memoryqueue/consumer.go:88-142 | in every run, overflows included, a consumer acknowledges in increasing order exactly the numbers below the offset that its replay reached before it was left or that its channel did not drop |
| `DeliveryProtocol.GapFreeExactly` | internal/queue/memoryqueue/consumer.go:108-142 | in every run the acknowledged numbers are one gap-free interval from the larger of oldest and offset, exactly unless one was lost by a cut replay or a full channel or one before that start was taken after a cut |
| `DeliveryProtocol.NothingLeftBehindExactly` | internal/queue/memoryqueue/consumer.go:88-142 | in every run an unacknowledged message falls below the offset exactly when a replay was cut at or before it and a later message acknowledged, or it met a full channel, was not replayed, and a later one was acknowledged |
| `DeliveryProtocol.CaughtUpMeansAllAcknowledged` | internal/queue/memoryqueue/consumer.go:88-142 | a consumer that has drained its channel has acknowledged exactly what its replay reached and its channel took; without cut and drops that is everything from its start on, each once, and there is no lag |
| `DeliveryProtocol.UnacknowledgedAreRedelivered` | internal/queue/memoryqueue/consumer.go:88-129 | after a consumer ended, a message in its reach that it did not acknowledge and that is still in the ring is replayed to the next one, exactly unless it was lost as above |
| `DeliveryProtocol.RecoveryIsConsistentExactly` | internal/queue/memoryqueue/queue.go:331-354 | after recovery the offset is within the topic exactly when the saved offset was |
| `DeliveryProtocol.AtomicSaveIsConsistent` | internal/queue/memoryqueue/queue.go:211-230 | a save whose offsets are read together with its messages is always consistent |
| `DeliveryProtocol.CancelledReplayCanLoseMessages` | internal/queue/memoryqueue/consumer.go:133-142 | a run in which a cancelled replay loses messages although no channel drops any |
| `DeliveryProtocol.OverflowCanLoseAMessage` | internal/queue/memoryqueue/queue.go:117-122 | a run in which a full channel loses a message and no replay was cut |
| `DeliveryProtocol.LateOffsetsTearASave` | internal/queue/memoryqueue/queue.go:215-219 | a run in which an acknowledgement during a save makes the recovered offset exceed the recovered topic |
| `MemoryQueue.RingAppend` | internal/queue/memoryqueue/queue.go:110-115 | writing at the tail and moving head and tail modulo the capacity appends to the window, dropping its oldest message when full |
| `MemoryQueue.TopicState.Append` | internal/queue/memoryqueue/queue.go:103-115 | the array with its indices represents the old window with the message pushed |
| `MemoryQueue.TopicState.Offer` | internal/queue/memoryqueue/queue.go:117-122 | each registered consumer gets the message, or loses it when its channel is full; nobody waits |
| `MemoryQueue.TopicState.Serialize` | internal/queue/memoryqueue/queue.go:181-197 | the walk around the ring yields exactly the window, oldest first |
| `MemoryQueue.TopicState.Fill` | internal/queue/memoryqueue/queue.go:340-349 | refilling a fresh array from a stored list represents it; a list as long as the array reads as empty, and a longer one is an index out of range |
| `MemoryQueue.TopicState.Replay` | internal/queue/memoryqueue/consumer.go:119-129 | the walk from the head yields exactly the messages to replay |
| `MemoryQueue.OffsetTable.AdvanceOffset` | internal/queue/memoryqueue/consumer.go:205-218 | an offset moves to one past the acknowledged number and never back; other offsets stay |
| `MemoryQueue.MemoryQueue.GetOrCreateTopic` | internal/queue/memoryqueue/queue.go:127-138 | a topic is created empty once; the rings, consumers and channels of all others stay as they are |
| `MemoryQueue.MemoryQueue.TopicsAreApart` | internal/queue/memoryqueue/queue.go:127-138 | two topics share no ring, no message array and no channel, whatever was produced, registered or recovered |
| `MemoryQueue.MemoryQueue.Produce` | internal/queue/memoryqueue/queue.go:87-125 | the message gets the next number, is pushed into the window and offered to the consumers of its topic; the windows, consumers and channels of all other topics stay as they are |
| `MemoryQueue.MemoryQueue.NewConsumer` | internal/queue/memoryqueue/consumer.go:28-59 | a consumer with an empty channel is registered with its topic, no message is lost or sent, and all other topics stay as they are |
| `MemoryQueue.MemoryQueue.BuildPersistState` | internal/queue/memoryqueue/queue.go:211-230 | the saved state holds the windows and numbers, and the offset table itself rather than a copy |
| `MemoryQueue.MemoryQueue.Recover` | internal/queue/memoryqueue/queue.go:331-354 | every stored topic has its stored list and next number again, in a fresh ring without consumers, unless a list is longer than a ring; the queue is in good order when the stored lists are windows as a save writes them |
| `MemoryQueue.MemoryQueue.DescribeConsumerGroup` | internal/queue/memoryqueue/admin.go:36-84 | exactly the topics on which the group has a consumer, with the next number minus the offset, cut off at zero |
| `MemoryQueue.Consumer.ReplaySnapshot` | internal/queue/memoryqueue/consumer.go:108-131 | the consumer starts with exactly the replayable messages, cut at its offset |
| `MemoryQueue.Consumer.Process` | internal/queue/memoryqueue/consumer.go:148-194 | if nobody cancels, a message is always done with and the offset moves past it, whatever the handler answers; a permanent failure ends the delivery at once, acknowledged; the consumer stops, with the offset as it was, only when its last attempt failed and the context was cancelled |
| `MemoryQueue.Consumer.ProcessStep` | internal/queue/memoryqueue/consumer.go:91-194 | what a delivery does to the offset is the step of the protocol that skips, acknowledges or refuses the message, the last only after a cancellation |
| `MemoryQueue.SaveAndRecover` | internal/queue/memoryqueue/queue.go:211-354 | saving and recovering restores windows, next numbers and offsets |
| `MemoryQueue.SaveAroundAck` | internal/queue/memoryqueue/queue.go:211-252 | the aliased offset table makes an acknowledgement after the save appear in what is saved |
| `BatchTypes.PageExists` | database/queries/torrents.sql:31-38 | a page, the first rows in key order above the cursor and within the barrier, always exists |
| `JobProtocol.StepKeepsSlot` | internal/jobcontrol/controller.go:30-48 | in every interleaving the slot is held exactly while a goroutine is between taking and releasing it |
| `JobProtocol.AtMostOneRunner` | internal/jobcontrol/controller.go:30-48 | over all trackers there is at most one run goroutine at any time |
| `JobProtocol.RunKeepsOk` | internal/jobcontrol/batch.go:298-452 | every row at or below a cursor in memory or in the store has been handled, whatever fails |
| `JobProtocol.PageFinished` | internal/jobcontrol/batch.go:396-444 | moving the cursor over a page that was handled keeps that invariant |
| `JobProtocol.PageListed` | internal/jobcontrol/batch.go:383-396 | an empty page means that everything within the barrier has been handled |
| `JobProtocol.DoneMeansHandledExactly` | internal/jobcontrol/batch.go:383-452 | when a job is done, in memory or persisted, the rows of its barrier still in the table have been handled, exactly but for those at or below the epoch cursor |
| `JobProtocol.CursorNeverSkips` | internal/jobcontrol/batch.go:146-184 | no cursor, persisted or not, ever stands past a row that was not handled |
| `JobProtocol.DiscardIsFinalExactly` | internal/jobcontrol/batch.go:258-280 | a discarded run stays discarded exactly when no goroutine of the tracker can still save |
| `BatchJob.Controller.TryAcquire` | internal/jobcontrol/controller.go:30-41 | the slot is taken exactly when it is free |
| `BatchJob.Controller.Release` | internal/jobcontrol/controller.go:43-48 | the job no longer holds the slot; nobody else is affected |
| `BatchJob.Controller.Paused` | internal/jobcontrol/controller.go:51-56 | paused exactly while some job holds the slot |
| `BatchJob.BatchProgress.MarkFailed` | internal/jobcontrol/batch.go:105-112 | a failed run is stopped, with its barrier, cursor and counters as they were |
| `BatchJob.PageMovesCursor` | internal/jobcontrol/batch.go:425-440 | the rows above the cursor shrink by exactly the page, so the run ends |
| `BatchJob.PageMovesCount` | internal/jobcontrol/batch.go:425-440 | counting a page keeps the counter equal to the number of rows passed |
| `BatchJob.LoadedIsRight` | internal/jobcontrol/batch.go:146-184 | what is loaded after a crash neither claims nor counts more or less than was done, so that a resumed run counts on from a right count |
| `BatchJob.SavedComesBack` | internal/jobcontrol/batch.go:146-184 | saving and loading keeps barrier, cursor and counters; the run can be resumed when it could, and a changed configuration shows |
| `BatchJob.Begin` | internal/jobcontrol/batch.go:305-379 | the barrier is set once and kept on resume; a failing count ends a fresh run but not a resumed one |
| `BatchJob.Turn` | internal/jobcontrol/batch.go:383-444 | one turn hands out one page, moves the cursor to its last row only after success, and persists; each failure leaves the cursor |
| `BatchJob.Loop` | internal/jobcontrol/batch.go:383-444 | the turns hand out rows in strict key order and end |
| `BatchJob.Run` | internal/jobcontrol/batch.go:298-452 | whatever happens the slot is released once; the rows handed out are in strict key order; a done run, fresh or resumed, has handed out all rows between its start and its barrier, and its count is its total exactly when no row lies at or below the epoch cursor, if nothing was deleted and every row was counted |
| `BatchJob.CountReachesTotalExactly` | internal/jobcontrol/batch.go:342-356 | the rows counted equal the rows listed exactly when none lies at or below the epoch cursor |
| `BatchJob.CleanRunReachesTotalExactly` | internal/jobcontrol/batch.go:425-451 | with no row left above the cursor a counter that is right equals the total exactly when no row lies at or below the epoch cursor |
| `BatchJob.BatchTracker.Load` | internal/jobcontrol/batch.go:146-184 | a persisted run comes back with its cursor and its count, for any fingerprint; one that differs is flagged |
| `BatchJob.BatchTracker.Start` | internal/jobcontrol/batch.go:188-244 | a job starts only when the slot is free, resumes when it can, and gives the slot back when preparing fails |
| `WebhookProtocol.EventsAreConserved` | internal/webhook/publisher.go:179-246 | in every run each accepted event is delivered, queued, in a queue being drained, or dropped for lack of room, with multiplicity |
| `WebhookProtocol.EachEventInOnePlace` | internal/webhook/publisher.go:179-246 | events that differ are each in exactly one of those places |
| `WebhookProtocol.RetiredQueuesOnlyShrink` | internal/webhook/publisher.go:108-114 | no step adds an event to a queue that was replaced: it stays or loses its first event |
| `WebhookProtocol.LoneWorkerIsNeverStranded` | internal/webhook/publisher.go:281-302 | when at most one worker is in the loop at any time, one that waits on a replaced queue has a wake token pending or a resize under way |
| `WebhookProtocol.PendingEventIsDeliverable` | internal/webhook/publisher.go:281-324 | after such a run, during a resize or not, a worker that has not begun to drain can deliver the oldest pending event by its own steps once the resizer has finished |
| `WebhookProtocol.SecondWorkerCanBeStranded` | internal/webhook/publisher.go:326-348 | a run with two workers in which one waits forever |
| `WebhookProtocol.CanStrandExactly` | internal/webhook/publisher.go:281-348 | from any state a run can reach, without another start some continuation strands a worker exactly when one is stranded already or two are in the loop |
| `WebhookProtocol.MigrationMovesAPrefix` | internal/webhook/publisher.go:189-204 | however workers interfere, migration keeps the order, moves as many events as fit and drops the others; those received meanwhile are delivered |
| `WebhookProtocol.ResizeLosesNothingIffTheyFit` | internal/webhook/publisher.go:154-161 | however workers interfere, a resize drops no event exactly when the pending events less those delivered meanwhile fit the new capacity |
| `WebhookPublisher.Publisher.Publish` | internal/webhook/publisher.go:216-247 | an admitted event is appended to the current queue with the settings of that moment, or dropped when it is full |
| `WebhookPublisher.Publisher.ResizeQueue` | internal/webhook/publisher.go:179-210 | the new queue holds the migrated prefix, the old one is empty, the worker has a token |
| `WebhookPublisher.Publisher.Update` | internal/webhook/publisher.go:157-161 | the configuration is replaced; the queue has the new capacity and keeps the oldest events, as many as fit |
| `WebhookPublisher.Publisher.Drain` | internal/webhook/publisher.go:313-324 | draining delivers what is queued, in order |
| `RetryProtocol.RunKeepsOk` | internal/retryqueue/queue.go:132-371 | in every run the table agrees with the history of each entry, and what a scan holds is a row it listed |
| `RetryProtocol.BudgetHolds` | internal/retryqueue/queue.go:279-362 | recorded dispatches have counts that never fall and never exceed the limit, repeat only across a touch, and number at most the limit plus the touches |
| `RetryProtocol.CountsIncrease` | internal/retryqueue/queue.go:320-347 | of two recorded dispatches the later has the larger count unless the entry was touched in between |
| `RetryProtocol.DispatchCountsExactly` | internal/retryqueue/queue.go:320-347 | a dispatch count exceeds the last one by exactly the failures reported before the listing, or by one for a lost outcome when there were none and no touch |
| `RetryProtocol.TouchLetsACountRepeat` | database/queries/torrent_retry_queue.sql:46-50 | a run with limit one and two recorded dispatches |
| `RetryProtocol.FailureDuringScanIsForgotten` | internal/retryqueue/queue.go:342-347 | a run in which a failure between listing and marking is overwritten |
| `RetryProtocol.LostMarksRepeat` | internal/retryqueue/queue.go:340-353 | dispatches whose mark fails repeat with the same count, any number of times |
| `RetryQueue.CountedOnce` | database/queries/torrent_retry_queue.sql:1-18 | an upsert adds one to every key given, creates the missing ones at one, clears leases and leaves other keys |
| `RetryQueue.Queue.EnqueueBatch` | internal/retryqueue/queue.go:132-254 | every key given has one failure more; exactly the torrents that then exceed the limit are announced for deletion; those whose delete succeeds are gone with all their entries; every other row stays; errors leave everything |
| `RetryQueue.Queue.DispatchDue` | internal/retryqueue/queue.go:279-371 | of the due rows as many as a batch holds are handled in order, one message each: a deletion when the attempt exceeds the limit, the retry otherwise; marked rows carry their attempt and a lease, deleted torrents are gone, every other row stays, and if nothing fails all are marked or gone |
| `RetryQueue.Queue.RetryNow` | internal/retryqueue/queue.go:426-442 | all entries of the torrent lose their lease, a missing one is reported, and a failing store leaves everything |
| `RetryQueue.Queue.Remove` | internal/retryqueue/queue.go:256-272 | the entries of the torrents whose delete succeeds are gone, all of the given ones if none fails, and nothing else |
| `LexerBase.Lexer.Backup` | internal/database/fts/lexer_base.go:42-48 | a step back undoes the last read; every caller in the readers meets its demand, so it never panics |
| `LexerBase.Lexer.ReadWhile` | internal/database/fts/lexer_base.go:75-88 | reads the longest prefix of the class and leaves the rest |
| `LexerBase.Lexer.ReadInt` | internal/database/fts/lexer_base.go:90-102 | reads the decimal number at the start, absent or too large included |
| `LexerBase.Lexer.ReadQuotedString` | internal/database/fts/lexer.go:15-36 | reads up to the closing quote with doubled quotes undone, and reports a missing one |
| `LexerBase.QuotedRoundTrip` | internal/database/fts/tsvector.go:231-237 | whatever a string contains, doubling its quotes and reading it back gives the string |
| `TsvectorFormat.PrintedParses` | internal/database/fts/tsvector.go:42-122 | printing and parsing gives the vector without its labels at position zero |
| `TsvectorFormat.RoundTripExactly` | internal/database/fts/tsvector.go:42-196 | printing and parsing gives back the vector exactly when lexemes are non-empty, positions at least one and weights A to D |
| `TsvectorFormat.ParsedIsGood` | internal/database/fts/tsvector.go:103-198 | everything that parses has non-empty lexemes, positions that fit and weights A to D |
| `TsvectorFormat.LabelTextMeans` | internal/database/fts/tsvector.go:78-90 | a label is printed as its position followed by its weight, where D alone is not written |
| `TsvectorFormat.LabelReadMeans` | internal/database/fts/tsvector.go:169-182 | a label is read as the position its digits spell and the weight after them in either case, or D |
| `TsvectorPositions.PositionsExactly` | internal/database/fts/tsvector.go:204-227 | over any sequence of texts, token j of text i is at the start of the text plus j, nothing else has a position, and the greatest one is the end of the last text |
| `TsvectorPositions.PositionsDoNotMeet` | internal/database/fts/tsvector.go:204-227 | a position belongs to one lexeme, and positions of different texts differ by at least two |
| `TsvectorPositions.TextStands` | internal/database/fts/tsvector.go:204-227 | a text added to a vector stands at consecutive positions from 1, or from two past the greatest there is, with its weight, and nothing else changes |
| `TsvectorPositions.BuiltIsWellFormedExactly` | internal/database/fts/tsvector.go:204-227 | a vector built from texts survives printing and parsing exactly when the weights used are A to D and no position is too large |
| `Tsvector.Tsvector.Copy` | internal/database/fts/tsvector.go:32-40 | an equal vector that shares no table with the original |
| `Tsvector.Tsvector.AddText` | internal/database/fts/tsvector.go:204-227 | the lexemes of the text are added at consecutive positions one past the gap after the greatest |
| `Tsvector.Tsvector.CopyAndAdd` | internal/database/fts/tsvector.go:32-40 | adding text to a copy leaves the original as it was |
| `Tsvector.Tsvector.ToString` | internal/database/fts/tsvector.go:42-101 | prints the entries in order of lexeme and position |
| `Tsvector.ParseTsvector` | internal/database/fts/tsvector.go:103-123 | parses as the format says, with the same error |
| `Tsvector.PrintAndParse` | internal/database/fts/tsvector.go:42-123 | the round trip as the program runs it succeeds exactly for well-formed vectors |
| `Tokenizer.TokenizeByRuns` | internal/database/fts/tokenizer.go:10-104 | tokenizing is splitting into maximal runs of word characters, each of which makes one phrase |
| `Tokenizer.SeparatorSplits` | internal/database/fts/tokenizer.go:55-103 | what stands before and after a separator is tokenized on its own |
| `Tokenizer.TokensAreLexemes` | internal/database/fts/tokenizer.go:55-103 | every phrase has lexemes; a lexeme is non-empty and without quotes and backslashes |
| `Tokenizer.AsciiSpells` | internal/database/fts/tokenizer.go:63-67 | a run of characters that are ASCII in lower case spells itself in lower case |
| `Tokenizer.UnspacedSpells` | internal/database/fts/tokenizer.go:68-92 | each character of a language without spaces is a lexeme of its own, by its transliteration |
| `Tokenizer.ReadPhrase` | internal/database/fts/tokenizer.go:40-104 | reads the first phrase and leaves the reader after it |
| `TsqueryFormat.LexPrint` | internal/database/fts/tsquery.go:207-214 | a printed query reads back, quotes and prefix marks included, as the tokens it was printed from |
| `Tsquery.CompiledIsExpr` | internal/database/fts/tsquery.go:103-215 | for every list of tokens, unbalanced parentheses included, what is compiled is nothing or an expression |
| `Tsquery.CompiledWords` | internal/database/fts/tsquery.go:103-215 | the words compiled are those of the quoted strings and phrases, none lost, added or moved |
| `Tsquery.CompiledIsAccepted` | internal/database/fts/tsquery.go:103-215 | nothing is compiled exactly when there is no word; otherwise the text is accepted as a well-formed query of exactly those words |
| `TsqueryMeaning.CompiledMeans` | internal/database/fts/tsquery.go:103-215 | what is compiled reads back as the operands typed: each is joined by the last operator typed since the one before, "and" if none was, negated if a negation was, starred if a mark follows, and grouped as typed |
| `TsqueryMeaning.TextMeans` | internal/database/fts/tsquery.go:103-215 | the text matches a document exactly when what was typed asks for it |
| `TsqueryMeaning.SignsMean` | internal/database/fts/tsquery.go:118-130 | two groups side by side or with & between them ask for both, with a vertical bar for either |
| `TsqueryMeaning.GroupsMean` | internal/database/fts/tsquery.go:132-207 | a group in parentheses asks for what is in it, and a negated one for the opposite |
| `TsqueryMeaning.WordsMean` | internal/database/fts/tsquery.go:137-176 | a quoted string or a run of characters asks for its words one after the other, the last one as a prefix when it is starred |
| `TsqueryMeaning.NegationIsOppositeExactly` | internal/database/fts/tsquery.go:132-161 | a negated operand asks for the opposite exactly when it is a single word |
| `TsqueryMeaning.SignsAreRead` | internal/database/fts/tsquery.go:55-87 | each sign is read as its token |
| `TsqueryCompiler.ReadQueryToken` | internal/database/fts/tsquery.go:55-101 | the next token of what was typed, with empty quotes skipped as the program skips them |
| `TsqueryCompiler.CompileTokens` | internal/database/fts/tsquery.go:103-215 | the text compiled from any tokens reads back as the operands typed, each with its operator, negation, prefix mark and group, and matches exactly the documents asked for; the recursion ends |
| `TsqueryCompiler.AppQueryToTsquery` | internal/database/fts/tsquery.go:7-22 | for every input string the result is empty or reads back as a well-formed query of the words typed, and it matches exactly the documents that the signs between the words ask for |
| `SearchQuery.NumberMeans` | internal/database/search/search_torrent_content.go:437-451 | a numbered clause, looked up in its arguments, is the text with the values it was made from |
| `SearchQuery.DropClauseText` | internal/database/search/search_torrent_content.go:135-157 | removing a clause and shifting the higher placeholders gives the clauses numbered afresh |
| `SearchQuery.DropClauseArgs` | internal/database/search/search_torrent_content.go:158-160 | removing its arguments gives the arguments of the others |
| `SearchQuery.KeptClauseKeepsMeaning` | internal/database/search/search_torrent_content.go:132-161 | every clause that is kept means under the shorter arguments exactly what it meant under the full ones |
| `SearchBuilder.Builder.AppendIn` | internal/database/search/search_torrent_content.go:437-451 | adds the clause with its values and keeps the next number one past the arguments |
| `SearchBuilder.Builder.AddFileTypes` | internal/database/search/search_torrent_content.go:59-88 | one alternative for each file type with extensions, all numbered in sequence |
| `SearchBuilder.Builder.AddRefs` | internal/database/search/search_torrent_content.go:106-119 | three placeholders for each reference |
| `SearchBuilder.Builder.Build` | internal/database/search/search_torrent_content.go:32-125 | the where clauses and their arguments find exactly the rows that satisfy every filter asked for: query, hashes, types, extensions, languages, years, references, barrier |
| `SearchBuilder.FacetWhere` | internal/database/search/search_torrent_content.go:132-161 | facet clauses and arguments are those of the same filters without the dropped one |
| `SearchBuilder.BuildOrderBy` | internal/database/search/search_torrent_content.go:231-291 | the order clause is the sort keys asked for, its arguments following those given |
| `SearchBuilder.BuildQueries` | internal/database/search/search_torrent_content.go:484-550 | in the page, count and has-next queries every placeholder stands for its value |
| `SearchBuilder.HasNextSkipsOnePageExactly` | internal/database/search/search_torrent_content.go:531-540 | has-next skips offset plus limit exactly when the sum fits 32 bits; otherwise its offset is negative |
| `SearchBuilder.PrepareSearch` | internal/database/search/search_torrent_content.go:18-165 | the page, count and has-next queries find exactly the rows the search wants, page and has-next in the order it wants, with its limit and offset; the facets are over the same search without its content types |
| `SearchMeaning.CondsMean` | internal/database/search/search_torrent_content.go:32-125 | the conditions read off the where clause hold of a row exactly when each filter of the search does |
| `SearchMeaning.OrderMeans` | internal/database/search/search_torrent_content.go:231-291 | the keys read off the order clause order two rows by the first sort key that tells them apart, in its direction, and then by info hash |
| `SearchMeaning.TiesAreBrokenExactly` | internal/database/search/search_torrent_content.go:237-285 | rows alike in all sort keys are still ordered exactly unless the last key is of an unknown field and another is not |
| `Int160.Cmp` | internal/protocol/int160.go:54-64 | the byte-wise comparison agrees with the order of the 160-bit numbers, and is zero only between equals |
| `Int160.IsZero` | internal/protocol/int160.go:82-90 | true exactly for the identifier whose number is zero |
| `Int160.Xor` | internal/protocol/int160.go:74-80 | the byte loop computes the distance |
| `Int160.DistanceIsMetric` | internal/protocol/int160.go:74-99 | the distance is symmetric, zero only between equals, satisfies the triangle inequality, and determines the other end |
| `Int160.ReadOverWrite` | internal/protocol/int160.go:33-48 | a bit written is read back, and all others are unchanged |
| `Int160.BitLengthOfDistance` | internal/protocol/int160.go:25-31 | the bit length of a distance is 160 minus the number of shared leading bits |
| `NodeCodec.RoundTripExactly` | internal/protocol/dht/nodeinfo.go:89-142 | encoding and decoding gives the nodes back exactly when every address has the right size and every port 16 bits |
| `NodeCodec.ElementIs` | internal/protocol/dht/nodeinfo.go:29-45 | an element is the identifier, the address, and the port with its high byte first |
| `NodeCodec.DecodedEncodes` | internal/protocol/dht/nodeinfo.go:89-142 | decoding and encoding gives back exactly the whole elements, the rest being shorter than one |
| `NodeCodec.NothingLeftExactly` | internal/protocol/dht/nodeinfo.go:95-99 | the error for left-over bytes comes exactly when the length is no multiple of the element size |
| `NodeCodec.UnmarshalBinarySlice` | internal/protocol/dht/nodeinfo.go:89-119 | the nodes of the whole elements are appended to the target, also before an error |
| `NodeCodec.MarshalIPv4` | internal/protocol/dht/nodeinfo.go:55-60 | every address needs an IPv4 form, and that form is what is read back |
| `RankFusion.RankSumPositive` | internal/elasticsearch/search/search.go:642-662 | a document has a score exactly when it is in one of the windows |
| `RankFusion.RankedByRanks` | internal/elasticsearch/search/search.go:642-696 | in rankings without repeated documents the order is decided by the ranks: earlier everywhere comes first, and of two in one ranking each, rank i of the keyword ranking comes before rank j of the vector ranking exactly when i is less than j + 30 |
| `RankFusion.CountTypes` | internal/elasticsearch/search/search.go:664-680 | each content type is counted once for every distinct document of that type, filtered or not |
| `RankFusion.RrfMerge` | internal/elasticsearch/search/search.go:638-744 | the page is the slice of a ranking that lists every distinct document passing the filter once, by its score of 3 / (i + 31) and 3 / (j + 61); a document ranked before another wherever that one is ranked comes first; the total is its length and each type counts its distinct documents |
| `LogNames.SeqNameParses` | internal/logging/file_rotator.go:311-336 | a generated name parses back to its date and number |
| `LogNames.ParsePanicsExactly` | internal/logging/file_rotator.go:311-316 | parsing panics exactly on the base name directly followed by the suffix |
| `FileRotator.NextNameIsFresh` | internal/logging/file_rotator.go:223-247 | the next sequenced name is not taken and newer than all files of its day |
| `FileRotator.Rotator.ResolveActive` | internal/logging/file_rotator.go:178-221 | the file to append to is the newest of the day and still below the cap, or a new one |
| `FileRotator.Rotator.PruneBackups` | internal/logging/file_rotator.go:251-301 | only rotated files that are not active are removed; if all removals succeed, at most the maximum remains and none removed is newer than one kept |
| `FileRotator.Rotator.Rotate` | internal/logging/file_rotator.go:125-153 | after a size rotation the open file is a new, empty one; foreign files are untouched |
| `FileRotator.Rotator.Write` | internal/logging/file_rotator.go:52-123 | the open file stays within the cap unless it got a single entry since it was opened; it is that of the day; a full one is left for a new one, and one with room is not |
| `DateScanner.PartsAlternate` | internal/classifier/parsers_date.go:158-183 | no part is empty, and words and what is between them alternate |
| `DateScanner.PartsAreTheText` | internal/classifier/parsers_date.go:158-183 | the parts put together are the text |
| `DateScanner.FoundIsThere` | internal/classifier/parsers_date.go:39-139 | what is found is valid and comes from three parts joined by two equal separators in the text |
| `DateScanner.FoundExactly` | internal/classifier/parsers_date.go:39-113 | for parts that alternate, a date is found exactly when one of the words the scan lands on begins a date that is there |
| `DateScanner.UnhiddenIsFound` | internal/classifier/parsers_date.go:53-110 | the scan lands on every date that is among the first two parts, or whose word before carries no number or month, or is not joined to it by a separator |
| `DateScanner.IsoDateIsFound` | internal/classifier/parsers_date.go:17-139 | every valid date is read back from its ISO text |
| `DateScanner.DayFirstIsFound` | internal/classifier/parsers_date.go:115-139 | every valid date is read back from its text with day, month and year |
| `DateScanner.MonthFirstIsFoundExactly` | internal/classifier/parsers_date.go:115-139 | with the month first a valid date is read back exactly when its day cannot be a month or is the same number; otherwise day and month are exchanged |
| `DateScanner.DateCanBeMissed` | internal/classifier/parsers_date.go:59-69 | whatever the date, the text made of 7, a space and its ISO form is scanned without finding a date |
| `DateScanner.ParseDate` | internal/classifier/parsers_date.go:17-113 | the jumping loop stays within the parts and ends; what it finds is valid and there, it finds something exactly when it lands on a date, and it does when a date is unhidden |
| `DateScanner.ValidExactly` | internal/model/date.go:51-58 | a date counts as valid exactly when its year has four digits and it is in the calendar, or is the 29th of February of a century without leap day |

## Left out

- The Kafka queue, HTTP, GraphQL, Torznab, the web interface, the classifier workflow, and the clients
  of TMDB, language models and Elasticsearch: plumbing over libraries whose guarantees are not here.
- Wall-clock time, tickers, backoff delays and sleeping: delays are steps that may come at any time.
  In the retry queue any scan may list any entry, so when an entry becomes due is open and applying
  the backoff delay is not part of this model.
- Memory queue: 64-bit wrap-around of sequence numbers, JSON, compression and the database writes of
  the saved state. One live consumer for each group and topic, and recovery before any consumer, are
  assumed; whether a handler attempt succeeds is a parameter.
- DeliveryProtocol.AcknowledgementsIncrease: the order is that within one recovery. What a crash makes
  the group acknowledge again is bounded by the saved offset and not listed.
- MemoryQueue.MemoryQueue.Recover: empty places in a stored message list, which the program skips, are
  not part of this model.
- Batch jobs: a row inserted while a job runs is not at or below its barrier, which the barrier's
  clock and the insertion time give up to rounding below a microsecond; info hashes are numbers with
  zero for the empty one; a nil controller, log output and the finish callback are not part of this
  model; loading happens once, at startup.
- Webhook: matching rules are collapsed into whether an event is admitted, delivery over HTTP is one
  step, and the timing of stopping and starting is open.
- Retry queue: the limit and the counts fit 32 bits; that the torrent itself is deleted in the
  database is not part of this model, only the announcement and the retry entry.
- Full text: a string stands for the characters decoded from UTF-8; the character classes, lower case
  and the transliteration tables are parameters of which only what is needed is asked. Positions in
  error messages and in query tokens are not part of this model. The documents that queries are asked
  of are sequences of words: PostgreSQL matches lexemes with positions, and in a phrase it
  has rules of its own for an operand that is negated or a group, where the model asks it of one place.
- Search SQL: the fixed SQL fragments are symbols rather than text, so that the renumbering works on
  placeholders and not on a regular expression over the rendered clause; decoding the barrier, which
  is the current time when it is not given, and the facet query bodies are not part of this model.
  What a symbol asks of a row, and by what a column sorts, is the model's reading of its SQL text.
- RankFusion.RrfMerge: scores are real numbers, without floating-point rounding.
- Log rotation: directories within the log directory, files whose size cannot be read, and buffering
  (sizes count what was written, not what was flushed) are not part of this model. When the sequence
  numbers of a day are used up, only the wrap-around itself is modelled.
- The keyword search syntax (internal/database/fts/keywords.go), enumerations, null types and
  configuration code: finite or single-branch facts.
