# Rinse, modelled in Dafny

Rinse is a Soulseek client. It searches the network for tracks, downloads the best offer,
retries with the next best, shares what it has downloaded and uploads it to other peers. This
project models the parts of it that keep state, and proves what holds on all their runs, for
all inputs and all interleavings.

`dafny verify dfyconfig.toml` checks everything.

| module | what it is |
|---|---|
| `SearchTable`, `SearchQueue` | the queue table and its SQL statements; the queue as a state machine of claim loop, workers, spawned transfers, transfer monitor, clients and restarts |
| `SearchAttempts`, `SearchOrder`, `SearchCompletion` | how often an entry is claimed, in which order, and that no entry is forgotten |
| `SearchUnwinding`, `SearchDenial` | entries whose worker's task unwinds, and attempts that report twice |
| `QueueService` | the service's own methods, each shown to make exactly the machine's steps |
| `InvertedIndex`, `SharedFiles`, `ShareIndex`, `SharingService` | the share index: postings, word extraction, bulk and incremental build, search |
| `SearchReply` | the printer of search replies and the parser on the other side |
| `Framing`, `Negotiation`, `FileTransfer`, `Obfuscation` | frames and handshakes, the two-party negotiation, chunked transfer, the rotating mask |
| `UploadQueue`, `TokenBucket`, `SpeedTracker` | upload admission under a slot limit, the throttle, the 30-second window |
| `SearchRouting`, `OneShotRouting`, `AddressWaiters` | results by token under two locks, file connections to their waiters, address responses to theirs |
| `FileSelection` | ranking of offers |
| `Wrappers`, `Bytes`, `Text`, `Seqs`, `Messages` | options, byte strings and integers, text, sequences and sorting, the shared record types |

Concurrency is modelled by steps: one SQL statement, one lock-held region, one atomic
operation, one channel or one-shot operation, one spawn or one timeout. `Legal(s, run)` says
that each label of `run` is enabled when its turn comes and `After(s, run)` is where the run
leads; theorems quantify over all runs. Sequential code is written as methods over the fields or
streams it changes, and each is tied to the function or the steps that specify it.

Strings are byte sequences (`Str` is the well-formed ones), 32- and 64-bit numbers are bounded
integers, and `as u32` keeps the low 32 bits. Times, tokens and scores are real numbers.

## Where the code and its own text disagree

The model follows the code.

- A comment at src/protocol/file_selection.rs:338 reads a score above 50 as a title score above
  one half. The other points can reach 65, so a file without any title match can be ranked:
  `FiftyMeansHalfTheTitle`, `WeaklyTitledExactly`, `UnnamedFileIsRanked`.
- src/services/queue.rs:546 means to leave out of the retries only searches without results. The
  text it looks for can also come from a peer, as the reason of a denial: `TakenForNoResultsExactly`.
  And a first failure that is marked for retry can still be dropped, because a denial is reported to
  the transfer monitor too: `DeniedFirstAttemptWaits` for the condition, `RetriedEntryIsDropped`.
- `max_concurrent_searches` (src/services/queue.rs:365) bounds the workers, not the rows in
  `processing`: a peer's message that is too short makes the negotiation panic
  (src/protocol/peer.rs:729, :742, :763), which unwinds the worker's task, returns its permit and
  leaves the row as it is until a restart: `AbortedExactly`, `InitiateDownload`, `LeftRowsAddUp`,
  `AttendedExactlyUnlessUnwound`, `UntendedWaitsForRestart`.
- A comment at src/services/queue.rs:532 leaves completed rows to the transfer monitor. If the
  transfer has failed before the worker records the attempt, the monitor has already been there
  and the row stays: `EarlyFailureStrandsEntry`, and `StrandedExactlyWhenLate` for the condition.
  Rows completed when the server restarts stay for good: `RestartStrandsCompleted`.
- Entries popped by an upload check before the client is set are lost
  (src/services/upload.rs:333-341): `CheckWithoutClientLosesEntries`. src/main.rs:185 starts the
  checks before line 192 sets the client.
- A download that is cut short is reported as a success (src/protocol/peer.rs:952-1002):
  `AgreedSizeArrives` for the condition.
- `consume` can wait for ever: a full 64 KB buffer is never granted under a limit below 64 KB/s:
  `ConsumeEnds`, `SlowLimitsStopFullBuffers`; a transfer that reads such a buffer never ends:
  `EndsExactlyWhenAffordable`, `SlowLimitStallsTransfer`.
- A search whose request cannot be sent returns before its clean-up: `FailedSearchStaysRegistered`.
- A waiter's clean-up removes whatever is registered under its token, also another waiter:
  `SharedTokenLosesConnection`, and `WaiterIsReached` for the exact condition.
- The response parser stops at 100 files while the printer has no limit: `ReplyRoundTrip`.
- A fresh share index holds no bytes rather than the encoding of an empty list, so building from
  it one by one and scanning agree only on lists that are not empty: `IncrementalFromFresh`.

## Model

| member | source | states |
|---|---|---|
| `SearchQueue.ConcurrencyBound` | src/services/queue.rs:365-409 | on every interleaving of the claim loop, workers, spawned transfers, transfer monitor, clients, unwinding tasks and restarts: the running workers number at most `max_concurrent_searches`, and the rows in `processing` at most those workers plus the rows left behind by workers whose task unwound; without unwinding none is left behind |
| `SearchQueue.ProcessingIsStaffed` | src/services/queue.rs:378-400 | in any state that keeps the invariant, the same bounds, and why: a row in `processing` is worked on by the worker of its latest claim exactly when that worker has not unwound in this server run |
| `SearchQueue.StepInv` | src/services/queue.rs:365-657 | every single step (claim, verify, candidate choice, record, delete, release, unwind, report, monitor, enqueue, cancel, list deletion, restart) keeps the invariant: every `processing` row has the worker of its latest claim in charge or was left behind by it, permits balance, stamps are distinct and past, ids in use were handed out |
| `SearchQueue.ClaimsAreSeparated` | src/db/mod.rs:947-998 | between two claims of one row, whatever happens in between, that very row is put back to waiting: by a retry mark, or by the recovery of a row that was being processed |
| `SearchQueue.CancelSparesClaimed` | src/db/mod.rs:1228-1252 | on every run, cancelling an entry or a whole list leaves every row claimed since the server started exactly as it is |
| `SearchQueue.Alternatives` | src/services/queue.rs:781-784 | the five candidates behind the best one are kept for later attempts, or as many as there are |
| `SearchAttempts.AttemptBound` | src/services/queue.rs:550-581 | on every run whose attempts report once: an entry is claimed at most 7 times per server run, is in one place at a time (queue, worker, transfer, report, monitor, or left behind), and its cache never exceeds 5 |
| `SearchAttempts.SevenClaimsAreReached` | src/services/queue.rs:1210-1297 | the bound is reached: for every ranking of six offers or more, a legal run whose attempts report once leads from a server that has just started on one entry to its seventh claim |
| `SearchAttempts.StepThrifty` | src/services/queue.rs:1210-1297 | every step keeps the claims already made plus the measure (7 at retry count 0; 6 at a later retry with no cached candidate; else the cache size) within 7 |
| `SearchOrder.BoundedOvertaking` | src/db/mod.rs:947-998 | while a row waits, the claims made plus the rows still ahead of it never exceed the rows that were ahead of it at the start: it is claimed after at most that many others |
| `SearchOrder.HeadIsNext` | src/db/mod.rs:955-972 | a waiting row with nothing ahead of it is the only one that can be claimed |
| `SearchOrder.RetryGoesLast` | src/db/mod.rs:1069-1089 | a retry mark, set by a worker or by the monitor, puts the row behind exactly the rows that then wait |
| `SearchCompletion.StrandedExactlyWhenLate` | src/services/queue.rs:475-548 | along every run of one server: no row completed in it is ever left with nobody to settle it (worker about to delete it, running transfer, unread report, monitor) exactly when every worker records a running download before the end of that download has been dealt with |
| `SearchCompletion.NoEntryIsForgotten` | src/services/queue.rs:475-548 | on every such run from any start of a server: every entry still in the table waits; or is in `processing`, and then the worker of its latest claim is at it exactly when its task has not unwound; or is completed, and then somebody will settle it exactly when it was not completed at the start already; or is `failed` and was so at the start |
| `SearchCompletion.RestartStrandsCompleted` | src/db/mod.rs:1261-1275 | a row that is completed when the server restarts stays so after every later run, further restarts included, exactly until its list is deleted, with no worker, transfer, report or monitor on it: recovery resets processing rows only |
| `SearchCompletion.RestartIsInitial` | src/services/queue.rs:310-328 | a restart leads to a start of a server, with the same completed rows |
| `SearchCompletion.OrderlyIsInTime` | src/services/queue.rs:528-532 | it is enough that the monitor never marks a row for retry between the start of its download and the worker's record |
| `SearchCompletion.StepStrandsNone` | src/services/queue.rs:1040-1297 | each single step that records in time keeps every completed row covered by somebody who will delete or requeue it |
| `SearchCompletion.EarlyFailureStrandsEntry` | src/services/queue.rs:528-537 | the order matters: a transfer that fails before its worker records leads to a completed row that nobody will settle (the retry mark is overwritten) |
| `SearchCompletion.DownloadingIsReached` | src/services/queue.rs:668-928 | the state from which that happens is reached from a server that has just started on one waiting entry |
| `SearchUnwinding.AttendedExactlyUnlessUnwound` | src/services/queue.rs:392-394 | when attempts report once and the monitor never requeues a row between the start of its download and the worker's record, then at every moment of every run, restarts included: a `processing` row has a worker at it exactly when the worker of its latest claim has not unwound, and nobody at all has to do with one that has none |
| `SearchUnwinding.UntendedWaitsForRestart` | src/db/mod.rs:1261-1275 | a `processing` row that nobody has to do with stays exactly as it is, over every run without a restart, exactly until its list is deleted; a restart makes it wait again with its old stamp and retry count |
| `SearchUnwinding.LeftRowLeavesExactly` | src/services/queue.rs:365-657 | in general a row left behind leaves `processing` in exactly these steps: a restart, the deletion of its list, or the late record or report of an earlier attempt at it |
| `SearchUnwinding.LeftRowsAddUp` | src/services/queue.rs:378-394 | for every number k and every limit: from a server that has just started on k waiting entries, a legal run leads to k rows in `processing` with no worker running and all permits free |
| `SearchDenial.RefusedFirstAttempt` | src/services/queue.rs:1210-1297 | an entry whose first download is refused, so that its attempt reports twice: once worker and monitor have both dealt with it, in any order and with nothing else in between, it waits again exactly when the error does not count as "no results" and either another candidate is cached or the monitor took the report before the worker recorded; otherwise it is gone; if it waits, two retries are counted |
| `SearchDenial.RetriedEntryIsDropped` | src/services/queue.rs:550-581 | the dropped case at its input: with nothing cached, the worker marks the entry for retry, and the monitor then finds a retry already counted and deletes it |
| `SearchDenial.RefusedEntryIsHeldTwice` | src/protocol/client.rs:1635-1648 | why AttemptBound needs attempts that report once: after a refusal the monitor can requeue the entry before its worker records, and then two workers hold it |
| `SearchTable.NextIsUnique` | src/db/mod.rs:955-972 | with distinct stamps the row claimed next is determined by the table |
| `SearchTable.Database.EnqueueSearch` | src/db/mod.rs:864-895 | inserts one `pending` row with a new id, retry count 0 and the latest stamp, and changes no other row |
| `SearchTable.Database.ClaimNextPendingSearch` | src/db/mod.rs:947-998 | returns nothing exactly when no row waits; otherwise a waiting row with the smallest stamp, which alone becomes `processing` |
| `SearchTable.Database.MarkSearchCompleted` | src/db/mod.rs:1019-1036 | sets the status of that row, if it is still there, whatever it was |
| `SearchTable.Database.MarkSearchForRetry` | src/db/mod.rs:1069-1089 | sets `retry`, counts one more retry and re-stamps the row with the current time |
| `SearchTable.Database.DeleteCompletedSearch` | src/db/mod.rs:1038-1046 | removes the row only if it is `completed` |
| `SearchTable.Database.DeleteSearch` | src/db/mod.rs:1092-1100 | removes the row |
| `SearchTable.Database.CancelPendingSearch` | src/db/mod.rs:1230-1240 | removes the row only if it is `pending`, and says whether it did |
| `SearchTable.Database.CancelListPendingSearches` | src/db/mod.rs:1243-1252 | removes exactly the `pending` rows of the list and counts them |
| `SearchTable.Database.DeleteList` | src/db/mod.rs:742-750 | removes exactly the rows of the list, whatever their status, as the foreign key of the queue table demands |
| `SearchTable.Database.RecoverProcessingSearches` | src/db/mod.rs:1261-1275 | turns exactly the `processing` rows back to `pending` and counts them; none is left |
| `QueueService.QueueService.ClaimOnce` | src/services/queue.rs:378-409 | one turn of the claim loop is the machine's acquire followed by a claim of the next row for a new worker, or by giving the permit back when nothing waits |
| `QueueService.QueueService.VerifyClaim` | src/services/queue.rs:447-471 | a worker goes on exactly when its row is still being processed, and is the machine's first step |
| `QueueService.QueueService.EnqueueSearch` | src/services/queue.rs:152-184 | is the machine's enqueue step: a new row that waits with no retry counted |
| `QueueService.QueueService.CancelSearch` | src/services/queue.rs:276-282 | is the machine's cancel step, and says whether the row was pending |
| `QueueService.QueueService.CancelList` | src/services/queue.rs:285-292 | is the machine's list step: exactly the pending rows of that list are gone |
| `QueueService.QueueService.SelectCandidate` | src/services/queue.rs:693-802 | the candidate code makes exactly one machine step: nothing is downloaded for a match in the library; else it takes the first cached candidate, or the best of a fresh ranking and caches the next five, or as many as there are. It fails exactly when there is no match, nothing is cached, and the request could not be sent, nobody replied, or no file is eligible, in this order, with that error, whose text decides the retry |
| `QueueService.QueueService.InitiateDownload` | src/protocol/client.rs:1480-1648 | the rest of an attempt makes exactly one machine step: nothing is downloaded over a finished file; else what the peer sends decides: the task unwinds exactly when the negotiation aborts, a transfer is started exactly when it is allowed and the file connection comes, a denial and a failed file connection report twice, a failed negotiation once |
| `QueueService.QueueService.RecordAttempt` | src/services/queue.rs:475-657 | recording an outcome makes exactly the machine's record step (and, for a finished download, the delete step), for every outcome and error message |
| `QueueService.QueueService.HandleTransferCompletion` | src/services/queue.rs:1040-1297 | handling a report makes exactly the monitor's steps: delete row and cache on success; on failure requeue the row and keep the cache if it is the first or candidates are left, else drop both |
| `QueueService.QueueService.RecoverOnStartup` | src/services/queue.rs:310-328 | startup recovery is the machine's restart |
| `QueueService.AlternativesAreNextBest` | src/services/queue.rs:773-794 | the chosen candidate and the cached ones, five at most, are together the head of the ranking, in ranking order; nothing left out scores higher, and nothing is left out while fewer than five are cached |
| `QueueService.TakenForNoResultsExactly` | src/services/queue.rs:547 | for every way an attempt fails: its error is taken for "no results" exactly when nobody replied to the search, or the client's send error or the reason a download was not started for (a peer's denial included) holds the text that is looked for |
| `QueueService.EmptySearchIsNeverRetried` | src/services/queue.rs:541-581 | an attempt whose search nobody replied to is never retried, whatever its retry count: its entry is deleted |
| `QueueService.DeniedFirstAttemptWaits` | src/services/queue.rs:964 | an entry whose first download the peer denies waits again, once worker and monitor have dealt with it and nothing else has come between, exactly when the peer's reason does not hold that text and either another candidate is cached or the monitor came first; otherwise it is gone |
| `ShareIndex.SearchIsBruteForce` | src/services/sharing.rs:207-281 | in every reachable index and for every query: the selected indices are, as a set, those of the files whose words contain every include word and no exclude word (none without an include word), in non-decreasing order; the answer is their prefix of length at most `max_results` |
| `ShareIndex.SearchMultiplicity` | src/services/sharing.rs:234-268 | how often a matching file is selected: once for each time its name holds a rarest include word |
| `ShareIndex.WordFindsExactly` | src/services/sharing.rs:207-281 | in every reachable index, a query that is one stretch of letters and digits finds exactly the files whose stem holds it, in whatever case, as a stretch that cannot be extended and has two characters or more |
| `ShareIndex.PartsConjoin` | src/services/sharing.rs:214-254 | two parts of a query, each beginning with a word, find together exactly what each of them finds |
| `ShareIndex.DashExcludesExactly` | src/services/sharing.rs:224-268 | a word behind a dash, added to any query, takes away exactly what the word alone would find |
| `ShareIndex.FoundByOwnWords` | src/services/sharing.rs:419-436 | each file is found by each of its own words |
| `ShareIndex.ExcludedByOwnWords` | src/services/sharing.rs:256-268 | and by no query that adds one of them behind a dash |
| `ShareIndex.CaseDoesNotMatter` | src/services/sharing.rs:214 | queries that are the same in lower case select the same files |
| `ShareIndex.UnindexedWordMatchesNothing` | src/services/sharing.rs:419-436 | a query word of one character, or with a character that is neither letter nor digit, matches no file |
| `ShareIndex.IncrementalIsBulk` | src/services/sharing.rs:158-202 | adding files one by one to a scanned index gives the index of one scan of all of them (files, postings, paths, counts, encoded list) exactly when each is new and the 32-bit file count does not wrap to zero |
| `ShareIndex.IncrementalFromFresh` | src/services/sharing.rs:99-155 | starting from a fresh index, the two builds agree exactly when the paths are distinct and the number of files is not a multiple of 2^32 (so not for the empty list) |
| `ShareIndex.ReachableIsSound` | src/services/sharing.rs:99-202 | every index reachable by scans and additions has the postings and paths of its file list |
| `ShareIndex.GetFileFindsExactly` | src/services/sharing.rs:284-289 | in every reachable index a path is found exactly when some indexed file has it, and the last such file is returned |
| `ShareIndex.AddedFileIsFound` | src/services/sharing.rs:158-202 | after a file has been added, a file is found under its share path ("@@rinse", a backslash, and its name) exactly if it is audio, or if one was found there before |
| `InvertedIndex.SelectIsBruteForce` | src/services/sharing.rs:230-268 | for any documents: rarest-word-first intersection with exclusions selects exactly the documents a filter keeps, in ascending order |
| `InvertedIndex.SelectMultiplicity` | src/services/sharing.rs:230-268 | for any documents: the multiplicity of each selected document |
| `InvertedIndex.PostingsCount` | src/services/sharing.rs:118-127 | a posting list holds each document exactly as often as the document holds the word |
| `InvertedIndex.PostingsAscend` | src/services/sharing.rs:118-127 | posting lists are in ascending order of document |
| `InvertedIndex.LastPositionsExact` | src/services/sharing.rs:129-134 | the path index maps each path that occurs, and no other, to its last occurrence |
| `InvertedIndex.PostWords` | src/services/sharing.rs:120-127 | the loop that posts one file's words |
| `InvertedIndex.NarrowAll` | src/services/sharing.rs:244-254 | retaining word by word leaves those of the first word's postings that every word has |
| `InvertedIndex.CollectPostings` | src/services/sharing.rs:256-262 | the excluded set is the union of the excluded words' postings |
| `InvertedIndex.Intersect` | src/services/sharing.rs:234-268 | ordering by rarity, intersecting and excluding computes the selection |
| `SharedFiles.ExtractWordsExact` | src/services/sharing.rs:419-436 | the words of a name are exactly the maximal runs of letters and digits of its stem, lower-cased, with at least two characters |
| `SharedFiles.ScanHasDistinctPaths` | src/services/sharing.rs:327-360 | files found in one directory, whose names differ, get distinct share paths |
| `SharedFiles.SamePathSameName` | src/services/sharing.rs:363-393 | two files have one share path exactly when they have one name |
| `SharedFiles.SharedExactly` | src/services/sharing.rs:23-26 | a file is shared exactly when something precedes its last dot and one of ten extensions, in letters of either case, follows it |
| `SharedFiles.StemExactly` | src/services/sharing.rs:419-426 | words are taken from what precedes the last dot, or from the whole name |
| `SharingService.CollectFiles` | src/services/sharing.rs:327-360 | the directory loop keeps exactly the files with an audio extension, in order |
| `SharingService.BuildMaps` | src/services/sharing.rs:115-134 | the two indexing loops of a scan |
| `SharingService.BuildFileList` | src/services/sharing.rs:454-533 | the printer of the shared file list, before compression |
| `SharingService.SplitQuery` | src/services/sharing.rs:212-226 | splits query words into include words and, without their dash, exclude words |
| `SharingService.CollectResults` | src/services/sharing.rs:270-280 | the files at the selected indices, in order |
| `SharingService.SharingService.Scan` | src/services/sharing.rs:99-155 | a scan replaces the whole snapshot by the index of the files found; disabled, it changes nothing |
| `SharingService.SharingService.AddFile` | src/services/sharing.rs:158-202 | an addition appends one file to list, postings, paths and encoded list, or does nothing if its path is known |
| `SharingService.SharingService.Search` | src/services/sharing.rs:207-281 | the search method returns what the specification selects from the snapshot |
| `SharingService.SharingService.FindFile` | src/services/sharing.rs:284-289 | the path lookup; it finds a file exactly when some indexed file has the path |
| `SearchReply.ReplyRoundTrip` | src/protocol/peer.rs:344-425 | parsing a printed search reply gives the same username, token, (path, size, bitrate) list, slot flag, speed and queue length exactly when it lists at most 100 files |
| `SearchReply.ReplyParses` | src/protocol/peer.rs:344-425 | for every length of list: the parser succeeds and returns the first files up to its cap |
| `SearchReply.ReplyArrives` | src/protocol/client.rs:669-692 | every printed reply of at most 100 files becomes a result with the name and address of its connection, exactly the slots, speed and queue length that were printed, and exactly the files with their sizes and bitrates |
| `SearchReply.AnswersArrive` | src/protocol/client.rs:736-772 | for every reachable index, query and token: the dispatcher's answer is parsed into a result with exactly the matched files, at most 50, their sizes and bitrates, under that token, from a peer with free slots and neither speed nor queue announced |
| `SearchReply.AnswersWhenMatched` | src/protocol/client.rs:736-772 | there is an answer exactly when some file matches |
| `SearchReply.RepliesListKinds` | src/services/sharing.rs:537-595 | a reply lists what is known of bitrate (0), duration (1), sample rate (4) and bit depth (5), in this order |
| `SearchReply.ListsShowKinds` | src/services/sharing.rs:482-526 | the file list gives duration, sample rate and bit depth of a file whose bit depth is known, else bitrate, duration and a constant-rate mark (2) |
| `SearchReply.FileListReads` | src/services/sharing.rs:454-533 | the list of a share that holds files reads as one folder "@@rinse", their number, each file by its bare name with its size and, unless lossless, bitrate, and nothing else but an empty list of private folders |
| `SearchReply.ResultNamesExtension` | src/services/sharing.rs:552-560 | a reply gives each file's extension behind its size |
| `SearchReply.EncodeSearchResponse` | src/services/sharing.rs:537-590 | the printer's loop writes the specified bytes |
| `SearchReply.ParseFileSearchResponse` | src/protocol/peer.rs:344-425 | the parser's loops compute the specified parse, errors and panics included |
| `SearchReply.ParseFileList` | src/protocol/peer.rs:360-408 | the loop over the files, cut at 100 |
| `SearchReply.ParseAttributeList` | src/protocol/peer.rs:377-389 | the attribute loop: the last value of type 0, and an early stop when the buffer runs out |
| `Bytes.DecodeEncodeString` | src/protocol/messages.rs:321-338 | a length-prefixed string survives, whatever follows it |
| `Bytes.DecodeStringSound` | src/protocol/messages.rs:327-338 | decoding succeeds only on an encoded string of well-formed UTF-8 and consumes exactly it |
| `Bytes.Utf8Exactly` | src/protocol/messages.rs:327-338 | strings are exactly the encodings of sequences of Unicode scalar values |
| `Bytes.DecodeStringExactly` | src/protocol/messages.rs:327-338 | a buffer decodes to a string exactly when it begins with its encoding |
| `Framing.ReadsWhatWasSent` | src/protocol/peer.rs:28-52 | repeated `read_message` recovers any sequence written by `send_message` |
| `Framing.FrameReads` | src/protocol/peer.rs:28-52 | one frame reads back as its message and nothing more is consumed |
| `Framing.ReadIsFrame` | src/protocol/peer.rs:38-52 | whatever reads as a message of length at least 4 was the frame of that message |
| `Framing.SendMessage` | src/protocol/peer.rs:28-36 | writes length, code and data |
| `Framing.ReadMessage` | src/protocol/peer.rs:38-52 | the three reads compute the specified message and leave the rest of the stream |
| `Framing.ReadPeerMessageWithInitHandling` | src/protocol/client.rs:538-601 | the reads of the handshake-tolerant reader compute the specified message |
| `Framing.PlainMessageReads` | src/protocol/client.rs:538-601 | without a handshake message a framed message is read as it is exactly when its first bytes do not look like one: the code's low byte is neither 0 nor 1, or its data is empty or at least 196 bytes long |
| `Framing.MessageReadsBehindPeerInit` | src/protocol/client.rs:556-582 | behind a PeerInit every framed message is read as it is exactly when the PeerInit frame is shorter than 200 bytes |
| `Framing.MessageReadsBehindPierceFirewall` | src/protocol/client.rs:556-594 | behind a PierceFirewall every framed message is read as it is |
| `Framing.DispatchedCodesRead` | src/protocol/client.rs:644-930 | every code the dispatcher handles is read alike with no handshake, a PeerInit or a PierceFirewall |
| `Framing.AcceptsPeer` | src/protocol/peer.rs:183-250 | a PeerInit of type P is accepted as a peer connection under its name |
| `Framing.AcceptsFileConnection` | src/protocol/peer.rs:183-250 | a PeerInit of type F and a token arrive as a file connection with that token exactly when the PeerInit frame is shorter than 200 bytes |
| `Framing.AcceptsPiercedConnection` | src/protocol/peer.rs:191-204 | behind a PierceFirewall message the transfer token is the bare number that follows, whatever that message's own token |
| `Framing.AcceptsBareToken` | src/protocol/peer.rs:183-250 | a bare token is taken for one exactly when it is not a plausible handshake length |
| `Negotiation.BothAgree` | src/protocol/peer.rs:704-785 | however many ignorable messages precede on either side: the downloader is allowed the token and size the uploader sent, its reply makes the uploader proceed with that token, and each side has read exactly up to the deciding message |
| `Negotiation.AllowedExactly` | src/protocol/peer.rs:726-758 | the wait ends with Allowed exactly when, within its turns and behind messages of no interest, a code 40 comes with direction 1, that token, a file name and that size; the reply names the token and the rest is left unread |
| `Negotiation.DeniedExactly` | src/protocol/peer.rs:766-777 | it ends with Denied exactly when, in the same way, a code 50 comes with a file name and that reason, or a code 46 with a file name, and then the reason is "Upload failed" |
| `Negotiation.AbortedExactly` | src/protocol/peer.rs:720-764 | it panics exactly when, in the same way, a code 40 or 44 comes that ends inside a number, or, where overflow is checked, a length below 4 |
| `Negotiation.IgnoredExactly` | src/protocol/peer.rs:726-783 | the messages of no interest are exactly those of other codes than 40, 44, 46 and 50, code 40 with a file name and another direction, and code 44 with a file name and a place |
| `Negotiation.AnswerExactly` | src/services/upload.rs:572-621 | the uploader ends with an allowance or a refusal exactly when, within its turns and behind frames that are not its reply, a code 41 with its own token comes: flag 1 allows, any other refuses with the reason behind it |
| `Negotiation.ShortReplyGivesUp` | src/services/upload.rs:595-597 | a reply of fewer than five bytes ends the wait at once |
| `Negotiation.DownloaderSkips` | src/protocol/peer.rs:704-785 | each ignored message is consumed whole |
| `Negotiation.UploaderSkips` | src/services/upload.rs:572-621 | likewise for the uploader's loop |
| `Negotiation.WaitForTransferRequest` | src/protocol/peer.rs:704-785 | the downloader's loop computes the specified result and reply, with overflow checks (a length below 4 panics) and without (it wraps around and reads on) |
| `Negotiation.WaitForTransferReply` | src/services/upload.rs:572-621 | the uploader's loop computes the specified answer |
| `FileTransfer.WrittenIsPrefix` | src/protocol/peer.rs:922-1140 | for every interleaving, chunking and fault: what the receiver has written is a prefix of what the sender emitted, that of the file beyond the offset; the sender never emits more than it drew from the throttle, nor draws more than a buffer ahead; the receiver's count is what it has written |
| `FileTransfer.FaultlessTransferCopies` | src/protocol/peer.rs:922-1140 | with no fault, offset 0 and a file no longer than agreed, a finished transfer has copied exactly the file and both counts are its length; they are the agreed size exactly when the file has it |
| `FileTransfer.EndsExactlyWhenAffordable` | src/protocol/peer.rs:1064-1122 | however the rate is changed meanwhile: in a faultless transfer the two loops take at most 5*length+2 steps, and one that cannot go on has ended on both sides exactly when each `consume` has read a rate that is 0 or no less than its chunk; otherwise the sender waits for the throttle for ever |
| `FileTransfer.StalledExactlyWhenUnaffordable` | src/services/upload.rs:108-136 | `consume` reads the rate once: a sender that has asked for more than that rate stays stalled over every faultless run, whatever rates are set later, and no other ever is |
| `FileTransfer.FaultlessProgress` | src/protocol/peer.rs:950-1122 | without a fault something can go on until both sides are done, unless the sender waits for a grant that never comes |
| `FileTransfer.DrawnExactlyWhenAffordable` | src/protocol/peer.rs:1079-1082 | the throttle can let a chunk through, from some state and at some clock readings, exactly when it is no larger than a non-zero rate |
| `FileTransfer.SlowLimitStallsTransfer` | src/protocol/peer.rs:1079-1082 | under a limit below 64 KB/s a read that fills the buffer stalls the transfer, whatever follows, even if the limit is raised or lifted |
| `FileTransfer.AgreedSizeArrives` | src/protocol/peer.rs:950-1010 | a reported success: the bytes counted are on disk and are the first of the file beyond the offset, less than one buffer over the agreed size; they reach the agreed size exactly when it is 0 or the peer did not close the connection and no read failed or timed out |
| `FileTransfer.OvershootBound` | src/protocol/peer.rs:1059-1122 | on every run the sender passes the agreed size by less than one buffer |
| `FileTransfer.SendFileData` | src/protocol/peer.rs:1026-1140 | the sending loop: reads the offset, then reads, draws from the throttle, emits and counts what the specification says; it returns the bytes sent, fails before the loop, or is still waiting for the throttle |
| `FileTransfer.ReceiveFileData` | src/protocol/peer.rs:922-1011 | the receiving loop: asks for offset 0, then writes and counts what the specification says; a failed disk write is an error |
| `FileTransfer.SendLoopIsRun` | src/protocol/peer.rs:1064-1122 | every execution of the sending loop is a run of the transfer machine |
| `FileTransfer.ReceiveLoopIsRun` | src/protocol/peer.rs:950-1003 | every execution of the receiving loop is a run of the transfer machine |
| `FileTransfer.ReceiverAsksForOffsetZero` | src/protocol/peer.rs:937-939 | the offset the receiver sends is read as 0 |
| `Obfuscation.DeobfuscateUndoesObfuscate` | src/protocol/obfuscation.rs:23-76 | deobfuscation undoes obfuscation for every key and every length, a short last block included |
| `Obfuscation.ObfuscateUndoesDeobfuscate` | src/protocol/obfuscation.rs:51-76 | deobfuscation fails exactly on fewer than four bytes; otherwise its input is the obfuscation of its output |
| `Obfuscation.RotateOnceMore` | src/protocol/obfuscation.rs:32-36 | rotating right by 31 once more takes the key rotated left by n bits to the key rotated left by n+1 |
| `Obfuscation.KeyStreamRepeats` | src/protocol/obfuscation.rs:30-42 | the mask bytes repeat every 32 blocks |
| `Obfuscation.Obfuscate` | src/protocol/obfuscation.rs:23-46 | the block loop masks byte j with byte j mod 4 of the key rotated left by j/4+1 bits |
| `Obfuscation.Deobfuscate` | src/protocol/obfuscation.rs:51-76 | so does the other loop |
| `UploadQueue.ChecksNeverOverlap` | src/services/upload.rs:297-303 | on every interleaving: at most one check is under way, the flag says whether one is, and the active count is the number of running uploads (plus the one being spawned) |
| `UploadQueue.CountsWithinSlots` | src/services/upload.rs:305-348 | no check raises the active count above the slot limit it read, whatever finishes or is reconfigured meanwhile |
| `UploadQueue.ActiveWithinCap` | src/services/upload.rs:305-348 | while no configuration allows more than some number of slots, no more uploads than that run |
| `UploadQueue.EachEntryInOnePlace` | src/services/upload.rs:231-271 | every accepted entry is, in acceptance order, settled, held by the check under way, or queued; numbers are unique; what was started is running or finished, never both |
| `UploadQueue.StartsInAcceptanceOrder` | src/services/upload.rs:319-341 | on every run, whenever the client is set: no entry is lost, and uploads start in acceptance order, exactly when no check that holds entries looks for the client before it is set |
| `UploadQueue.SetClientIsNeverTooEarly` | src/services/upload.rs:332-341 | which no check does once the client is set |
| `UploadQueue.CheckWithoutClientLosesEntries` | src/services/upload.rs:332-341 | before the client is set, a check loses entries exactly when something is queued, sharing is on and a slot is free; it loses the oldest ones |
| `UploadQueue.CheckStartsOldest` | src/services/upload.rs:318-348 | an undisturbed check starts the oldest entries that fit and fills the slots or empties the queue |
| `UploadQueue.CheckIsRun` | src/services/upload.rs:297-405 | an undisturbed check is a run of the machine |
| `UploadQueue.StepInv` | src/services/upload.rs:231-405 | every step keeps slots, numbers, order and running uploads consistent |
| `UploadQueue.UploadService.HandleQueueUpload` | src/services/upload.rs:231-271 | a request is rejected, changing nothing, for one of the three reasons; or it is numbered and pushed, and its position is the new queue length |
| `UploadQueue.UploadService.GetQueuePosition` | src/services/upload.rs:274-279 | the 1-based place of the first entry of that user and path, if there is one |
| `UploadQueue.UploadService.CheckUploadQueue` | src/services/upload.rs:297-405 | the whole check: nothing if another is under way, else what the undisturbed check does |
| `UploadQueue.UploadService.UpdateConfig` | src/services/upload.rs:425-431 | is the machine's configuration step; afterwards the throttle works at 1024 bytes a second for each configured KB/s, and what its bucket holds is untouched |
| `TokenBucket.RateBound` | src/services/upload.rs:103-136 | for any passes by any senders, however `set_rate` changes the rate up to a limit, from any start: the bytes granted never exceed limit*(1 + elapsed seconds), and the tokens stay between 0 and the limit |
| `TokenBucket.ConsumeEnds` | src/services/upload.rs:108-136 | a lone `consume(bytes)`, at the rate it reads when it is called, is granted within about 100*bytes/rate sleeps of 10 ms exactly when bytes <= rate; otherwise never |
| `TokenBucket.SlowLimitsStopFullBuffers` | src/services/upload.rs:103-136 | a limit of n KB/s, 1024n bytes a second, can let a full 64 KB buffer through exactly when n is 64 or more |
| `TokenBucket.TokenBucket.Consume` | src/services/upload.rs:108-136 | the loop computes the specified passes; unlimited, it returns at once and leaves the bucket alone |
| `SpeedTracker.WindowIsRecentHistory` | src/services/upload.rs:170-181 | with a monotone clock the deque equals, in order, all samples ever recorded that are at most 30 seconds old |
| `SpeedTracker.PruneIsFilter` | src/services/upload.rs:174-180 | on samples in time order, front-only pruning is a filter |
| `SpeedTracker.SpeedTracker.Record` | src/services/upload.rs:170-181 | appends the sample and prunes the front; with a monotone clock the result is the recent part of the whole history |
| `SearchRouting.SearchReturnsItsOwn` | src/protocol/client.rs:1087-1180 | for every interleaving of deliveries and searches, those under way at one time having different tokens: a finished search returns a contiguous stretch of the replies stored for its token since its bucket was made, in order of arrival, each once, all with its token |
| `SearchRouting.CollectTakesAll` | src/protocol/client.rs:1157-1175 | each collection leaves the search with every reply stored for it so far |
| `SearchRouting.FinishedSearchLeavesNothing` | src/protocol/client.rs:1177-1181 | from the last step of a search on there is no bucket for its token, and until a later search draws the token again nothing makes one or stores another reply |
| `SearchRouting.FailedSearchStaysRegistered` | src/protocol/client.rs:1092-1104 | a search whose request could not be sent leaves its token active and its bucket in the map until a later search draws the token again |
| `SearchRouting.StepInv` | src/protocol/client.rs:696-708 | every lock-held region keeps the invariant tying tokens, buckets, searches and stored replies |
| `SearchRouting.SearchRegistry.Register` | src/protocol/client.rs:1092-1094 | the two insertions are the machine's first two steps |
| `SearchRouting.SearchRegistry.StoreResult` | src/protocol/client.rs:696-708 | a reply is kept exactly when its token is active, and is then appended to its bucket |
| `SearchRouting.SearchRegistry.TakeResults` | src/protocol/client.rs:1157-1175 | takes the bucket out of the map, empty if there is none |
| `SearchRouting.SearchRegistry.Unregister` | src/protocol/client.rs:1177-1181 | removes token and bucket |
| `OneShotRouting.ConnectionsAreNotShared` | src/protocol/client.rs:414-486 | in every reachable state no two consumers have the same connection, and each has one only with its own token |
| `OneShotRouting.OneConnectionEach` | src/protocol/client.rs:1318-1343 | a consumer that has been given a connection never gets another one: it keeps it, or loses it to a timeout before receiving it; a waiter that timed out or was cancelled never gets any |
| `OneShotRouting.RegisteredExactlyWhenUndisturbed` | src/protocol/client.rs:1323-1341 | over any run: a call that still waits is still registered exactly when it was before, no other call has registered under its token and no call with its token has removed a registration |
| `OneShotRouting.DispatchReachesRegistered` | src/protocol/client.rs:1061-1073 | a waiting call gets the dispatched connection that names its token exactly when it is the one registered |
| `OneShotRouting.WaiterIsReached` | src/protocol/client.rs:1318-1343 | from its registration on, as long as it waits, a call gets the next dispatched connection that names its token exactly when no other call has registered under the token and none has removed its registration |
| `OneShotRouting.DifferingTokensSuffice` | src/protocol/client.rs:1318-1343 | it is enough that calls that have not returned wait for different tokens; a token may be used again afterwards |
| `OneShotRouting.SharedTokenLosesConnection` | src/protocol/client.rs:1325-1341 | with a shared token it fails: the second registration cancels the first waiter, whose clean-up removes the second one's registration |
| `OneShotRouting.StepInv` | src/protocol/client.rs:414-486 | every step keeps places, channel and registrations consistent |
| `OneShotRouting.ConnectionRouter.HandleFileConnection` | src/protocol/client.rs:414-486 | the listener resumes the queued download registered under the token, once, or hands the connection to the channel |
| `OneShotRouting.ConnectionRouter.DispatchNext` | src/protocol/client.rs:1061-1073 | the dispatcher sends the oldest connection to the waiter registered under its token, removing the registration, or drops it |
| `OneShotRouting.ConnectionRouter.RegisterWaiter` | src/protocol/client.rs:1323-1326 | registers the waiter, replacing one with the same token |
| `OneShotRouting.ConnectionRouter.RemoveWaiter` | src/protocol/client.rs:1332-1341 | removes whatever is registered under the token |
| `AddressWaiters.RequestGetsFirstAnswer` | src/protocol/router.rs:367-383 | over any run: a request is sent exactly one response, the first one after it for its lower-cased name; while there is none, it keeps waiting |
| `AddressWaiters.FirstAnswerExactly` | src/protocol/router.rs:243-259 | the answer a request gets is the first later response whose user name is the same in lower case |
| `AddressWaiters.AnswerResolvesExactly` | src/protocol/router.rs:243-259 | a response is sent to exactly the requests then waiting under its lower-cased name, to each once; all others keep waiting |
| `AddressWaiters.StepInv` | src/protocol/router.rs:243-259 | every request is waiting once under its key or has been sent one response |
| `AddressWaiters.ServerRouter.GetPeerAddress` | src/protocol/router.rs:367-375 | appends the request to its key's list |
| `AddressWaiters.ServerRouter.HandlePeerAddress` | src/protocol/router.rs:243-259 | the send loop resolves the key's whole list and removes it |
| `FileSelection.RankingIsSortedPermutation` | src/protocol/file_selection.rs:302-379 | the ranking is a permutation of the eligible files, in descending score; files of equal score keep their order |
| `FileSelection.RankedExactlyWhenEligible` | src/protocol/file_selection.rs:302-379 | a file is ranked exactly when a peer with free slots offers it, it is audio of the wanted format and its score exceeds 50 (and the query has a title); every ranked score is in (50, 165] |
| `FileSelection.RankedIsOffered` | src/protocol/file_selection.rs:340-352 | a ranked file has the name, size and bitrate of an offered file and the name, address, slots, speed and queue of its peer |
| `FileSelection.ExactNameIsRanked` | src/protocol/file_selection.rs:85-94 | for a query without a separator: a wanted file of a free peer that is named like the query, up to case, marks and white space, is ranked, with 65 points or more |
| `FileSelection.ExactTitleIsRanked` | src/protocol/file_selection.rs:85-94 | for a query "artist - title": likewise for a file named like the title |
| `FileSelection.TrackNameExactly` | src/protocol/file_selection.rs:109-130 | the track name is what stands, in a file name, behind the path, any digits and any of " -._", and in front of the last dot |
| `FileSelection.BestFileIsGreatest` | src/protocol/file_selection.rs:391-400 | the best file is a ranked one with the greatest score whenever any file is ranked |
| `FileSelection.FallbackIsFirstAcceptable` | src/protocol/file_selection.rs:402-436 | otherwise it is the first acceptable file in the order of the replies, of 1048576 to 52428800 bytes and of a free peer if there is one, with score 0, and there is none exactly when no file is acceptable |
| `FileSelection.TitleScoreMeaning` | src/protocol/file_selection.rs:132-166 | title scores lie in [0, 1]: 1 for the expected title itself, else 0.9 for a name that contains it, else 0.7 for a name it contains, else 0.6 times the share of common words |
| `FileSelection.ScoreExactly` | src/protocol/file_selection.rs:329-337 | what a score is made of: title, format, version, extension, speed and queue |
| `FileSelection.SpeedBonusExactly` | src/protocol/file_selection.rs:331-332 | 25 points a megabyte a second, and no more than 25 |
| `FileSelection.QueuePenaltyExactly` | src/protocol/file_selection.rs:334-335 | a tenth of a point for each waiting upload, and no more than 5 |
| `FileSelection.NormalizeTwice` | src/protocol/file_selection.rs:98-106 | normalising yields lower-case words and is idempotent |
| `FileSelection.NormalizeAtSpace` | src/protocol/file_selection.rs:98-106 | white space of any kind and amount becomes one space between the normal forms of what it separates |
| `FileSelection.NormalizeWord` | src/protocol/file_selection.rs:98-106 | without white space, the letters and digits are left, in lower case |
| `FileSelection.FiftyMeansHalfTheTitle` | src/protocol/file_selection.rs:338 | "score > 50 means title score > 0.5" holds for every offer whose other points add up to at most 0 |
| `FileSelection.WeaklyTitledExactly` | src/protocol/file_selection.rs:329-339 | the ranked offers with a title score of at most 0.5 are exactly the wanted ones of free peers where neither name contains the other, at most five sixths of the words are shared, and 60 times that share plus the other points exceeds 50 |
| `FileSelection.UnnamedFileIsRanked` | src/protocol/file_selection.rs:329-339 | a file with no title match at all is ranked |
| `FileSelection.FindBestFiles` | src/protocol/file_selection.rs:302-379 | the two loops and the sort compute the ranking |
| `FileSelection.FindBestFile` | src/protocol/file_selection.rs:391-436 | the ranking's head, or the first acceptable file in the fallback loops |
| `FileSelection.CalculateRemixPenalty` | src/protocol/file_selection.rs:42-61 | 30 points exactly when the file name holds an indicator that the query does not |
| `FileSelection.VersionWordsExactly` | src/protocol/file_selection.rs:13-28 | the fourteen words that mark another version |
| `FileSelection.BetterFormatsScoreHigher` | src/protocol/file_selection.rs:184-227 | FLAC beats every other format, WAV beats MP3, and a higher bitrate never scores less |
| `FileSelection.FormatPoints` | src/protocol/file_selection.rs:184-227 | the points of a format depend on the extension alone, in letters of either case, and on the bitrate |
| `FileSelection.AudioExactly` | src/protocol/file_selection.rs:242-252 | a file counts as audio exactly when its extension, in letters of either case, is one of eight |
| `FileSelection.FormatExactly` | src/protocol/file_selection.rs:256-271 | a format asked for is exactly the extension the file must have, in letters of either case; "aiff" also admits "aif", and an unknown format every file |
| `Messages.BitrateIsFirst` | src/protocol/messages.rs:144-150 | a file's bitrate is the value of its first attribute of type 0 |
| `FileSelection.QueryNamesArtistAndTitle` | src/protocol/file_selection.rs:85-94 | a query "artist - title" of trimmed parts gives both back in lower case exactly when the separator does not already occur in the artist followed by a space |
| `Seqs.SortIsStable` | src/protocol/file_selection.rs:358 | the stable sort keeps the order of elements that compare equal |
| `Seqs.SortSorts` | src/protocol/file_selection.rs:358 | its result is sorted |

## Left out

- Sockets, TCP connects, HTTP handlers, WebSocket broadcasts and logging: a timeout or a connection fault is a step or an input, a connection is the bytes that will arrive and those written.
- Compression is the identity; audio tags, images, fuzzy matching of duplicates and random numbers are inputs or free choices (`FindDuplicate`, the obfuscation key, the search token).
- Unicode: letters, digits, white space and case are those of ASCII; other bytes are neither and have no case.
- SQL statements are assumed to succeed, and `created_at` stamps are strictly increasing: the column has a resolution of one second and the code leaves ties open.
- List totals and list status, item rows, search history, `started_at`, `item_id` and error columns of the queue.
- AttemptBound: for runs whose attempts report one outcome, because a denied download and a failed file connection report twice (src/protocol/client.rs:1592-1606, src/protocol/client.rs:1635-1648), and then an entry can be held twice (RefusedEntryIsHeldTwice); ConcurrencyBound holds either way.
- RefusedFirstAttempt and DeniedFirstAttemptWaits: while nothing else acts; a claim of the row before both reports are dealt with is the case of RefusedEntryIsHeldTwice.
- SearchQueue: a task unwinds only where a peer's message makes the negotiation panic, at the start of a download; the default of unwinding is assumed, as no build profile in Cargo.toml changes it. No other panic is modelled.
- NoEntryIsForgotten and StrandedExactlyWhenLate: along the run of one server; RestartIsInitial and RestartStrandsCompleted say how such runs join.
- BoundedOvertaking: within one server run, because a restart puts rows back with their old stamps.
- SearchReturnsItsOwn: for searches that have different tokens while they are under way; tokens are 32-bit random numbers and the code does not check for collisions. When a search stops waiting for results is not modelled, only that it may at any time.
- RequestGetsFirstAnswer: says what is sent; a caller that has given up no longer listens.
- EndsExactlyWhenAffordable: that a grant which is possible also comes, however other senders compete, is not claimed.
- UnindexedWordMatchesNothing and WordFindsExactly: letters and digits are those of ASCII, while the code also indexes accented and other letters.
- ConsumeEnds: with no other sender, on real numbers; the rate is the one the call has read, and a change takes effect with the next call; RateBound covers changing rates and any number of senders.
- GetQueuePosition: positions are not cut to 32 bits; a queue has fewer than 2^32 entries.
- RankingIsSortedPermutation: scores are real numbers, so rounding and comparisons that fail on not-a-number do not occur.
- BothAgree: covers the Allowed outcome of `wait_for_transfer_request`, which never answers Queued; the expected file name is not compared by the code either, and `negotiate_download`, which could answer Queued and which nothing calls, is not modelled. It joins the uploader's stream to the one the downloader reads; an uploader that opens a connection of its own instead sends its request to the other side's listener, which ignores it (src/protocol/client.rs:838-873).
- WaitForTransferRequest and WaitForTransferReply count turns instead of reading the clock.
- FileTransfer: the byte counters are unbounded; progress callbacks and logging are left out, and the directory of the output file is assumed to exist.
- SendFileData and ReceiveFileData take what each read and write will do, and the clock readings while the throttle waits, as a list of turns; running out of turns is a timeout. SendFileData has the throttle to itself during one call of `consume`; the steps of the machine start from any bucket other senders may have left. Its rate stays as it is during the call; in the machine it changes at any time.
- UploadService and QueueService: the methods are proved for a call that nothing interrupts; interruptions are what the state machines are for.
- OneShotRouting: the channel between listener and dispatcher is unbounded. The registration of queued downloads (step Queue) follows the code that handles a Queued outcome (src/protocol/client.rs:1610-1632), which no negotiation now produces; the listener looks there first all the same, so the machine keeps it and nothing proved depends on its being absent.
- SearchQueue: whether an error counts as "no results" is a free choice of the machine; QueueService ties it to the message. A download the peer has queued counts as a transfer that may never report.
- SearchOrder and SearchAttempts speak of claims, not of time: how long a search or a transfer takes is not modelled.
- `is_likely_obfuscated`, `avg_speed`, `queue_upload`, `read_peer_init`: one expression or one message each.
- Message kinds with a decoder only, chat, HTTP ranges, settings, accounts, metadata services: no property beyond one branch each.
