# A model of the record store, with its proofs

The system collects Mahjong game logs. A log comes in through an HTTP API, an archive upload or a live collector, is
claimed in PostgreSQL, produced to a Kafka partition, packed with others into one object, uploaded, indexed in
ClickHouse and scored. This project models what each of those steps does to the state it shares with the others, and
proves what the steps together keep. Run `dafny verify dfyconfig.toml` here to check it.

## How it is laid out

| files | what they model |
|---|---|
| `Pipeline`, `PipelineSafety`, `PipelineInvariant`, `PipelineConvergence` | the step system of logs, workers, bucket and index: every external call can succeed, fail, or land with its reply lost, and a worker can die between any two steps |
| `PackWorker` | the worker's own code as a class whose methods change its fields; each method is shown to be a sequence of steps of that system |
| `PipelineGc`, `CollectOrphans` | the collector beside the workers, and its own code, shown to be steps of that system |
| `Scenarios`, `LostCommitReply` | concrete runs used where a property fails |
| `PackFormat` | the bytes of a pack, its writer, reader and scanner |
| `ReplayEvents`, `ReplaySpec`, `ReplayLoop`, `ReplayGame`, `ReplayLaws`, `ReplayCounts` | the game scorer: the one-pass loop, an independent definition that scores each hand by looking back over it, the proof that the loop computes that, laws about the result, and what its counters count on the events themselves |
| `Claims`, `BatchImport` | idempotency claims under any interleaving of requests, and the archive import |
| `ProduceChunks` | routing and chunking of a batch |
| `XmlText`, `Listing`, `BucketListing` | the listing scanner, the page it reads, and the chain of pages |
| `KeysetWalk`, `Backfill`, `Reconvert` | keyset paging, the rewriting pass that walks the index beside live writers, and the pass that converts records again |
| `WatchQueue`, `Sweep` | the live collector's queues and the outside catalogue's sweep |
| `OutboundSlots`, `VersionSearch`, `Numerals` | the port allocator, the version search, and numbers as text |

Compression, hashing and JSON parsing are function parameters with the laws they need (`PackFormat.Lawful`: a frame is
never empty and decompresses to what went in; time stamps read back as they were written). Everything outside the
process is an argument: the outcome of a call (`Prelude.Outcome`), the clock, the answers of a server. A class method
is given those outcomes and its contract holds for all of them.

## What turned out not to hold

Where the natural statement is false of the code, the code is modelled as it is, a lemma gives a run on which it
fails, and the exact condition is proved where there is one.

- Replay converges exactly when no commit is applied with its reply lost. If one is, the worker's own committed offset
  stays behind the stored one; it replays part of what is durable, and a crash between that insert and the next commit
  leaves an original on top of the re-index that replaced it, for good (`LostCommitReply`).
- The grace period of the collector has to be longer than the longest upload-to-insert delay plus its own
  query-to-clock gap plus the clock skew of the bucket. At equality there is a run that deletes an object the view
  names (`PipelineGc.CollectorIsSafeIffGraceCovers`).
- A claim outlives its request without a record exactly when the reply of its insert is lost, its release fails, or the
  process dies in between; a game reaches the topic under two ids exactly when a produce that reports failure has landed
  (`Claims.NoClaimDanglesIff`, `Claims.OneRecordPerGameIff`).
- The comment above the backfill's scan says that it never rewrites a live row from stale bytes. It does: a re-index
  that lands between the query of a page and its insert is pointed back at the old location when the old row needed
  rewriting. The page keeps every location exactly when no rewritten row was given another one in that window
  (`Backfill.PageWritten`, `Backfill.StaleRewriteHidesReindex`).
- The pass that converts stored records again is marked done whatever it could not read, unlike the metadata pass: a
  corpus of one unreadable record is marked with nothing converted (`Reconvert.MarkedUnread`). A marked pass has read
  every row exactly when its count of unreadable rows, which nothing looks at, is zero
  (`Reconvert.Corpus.ReconvertStoredRecords`).
- When the slot file cannot be written, the new assignment is already in force in memory and still reads as ready,
  although the proxy has not heard of the new slots: a node can be handed a port that still goes out of another one
  (`OutboundSlots.UnsavedSlotsLookReady`). Readiness stays true exactly when each new node happens to be what the proxy
  already sends its slot to; and when the proxy has groups for slots in use only, exactly when there is no new node
  (`OutboundSlots.OutboundManager.SetOutboundNodes`).
- A bounded sweep ends without asking for the last ten seconds of its window when a full page leaves its cursor there.
  It covers its window when it ends on a page that is not full; otherwise a game before its cursor is kept, one after
  it is not, and of the cursor's own second those are that were on a page (`Sweep.SweptExactly`,
  `Sweep.LastSecondsAreLost`, `Sweep.LastSecondsUnasked`).
- The collector's documentation says that every failure leaves nothing deleted. A delete that fails leaves the deletes
  before it in place (`CollectOrphans.FailedRunDeletes`). What is gone is exactly the orphans up to the first delete
  that was not answered, and that one too if only its reply was lost; so a failed run leaves the bucket as it was
  exactly when none of those was there (`CollectOrphans.Bucket.Collect`).
- The scorer panics on an ura indicator that is nothing but red marks, or that does not begin with a single byte, when
  the search for a hit comes to it; and on a final result with a seat so high that a list as long cannot be made, as is
  every seat from 2^60 - 1 up. It panics exactly on the games with one of these (`ReplayGame.Panics`,
  `ReplayGame.RedMarkAlonePanics`, `ReplayGame.HugeSeatPanics`).
- Places are kept in one byte. They tell the seats apart exactly when there are no more than 256 of them, and follow the
  final scores exactly when there are no more than 255 (`ReplayLaws.ScoredPlaces`).
- Applying the runtime configuration while everything is ready, with a proxy that reloads but does not show the lane
  groups in time, leaves slots ready that are back on the shared group (`OutboundSlots.ReloadUnseenLooksReady`).
  Readiness stays true exactly when no reload was carried out or the last one brought every slot back to its node
  (`OutboundSlots.OutboundManager.ApplyRuntimeConfig`).

## Model

| member | source | states |
|---|---|---|
| PackFormat.PackWriter.Append | src/pack.rs:93-116 | an append succeeds exactly when both sizes fit their four byte fields and the disk takes the whole entry, and hands out the location of the new record; an entry that is too large changes nothing; a failed write leaves the part that was written |
| PackFormat.HeaderRoundTrip | src/pack.rs:93-116 | an entry header reads back as it was written, for every id and both sizes |
| PackFormat.ReadBack | src/pack.rs:175-197 | every location handed out for a pack reads back exactly its record, from the pack or from anything longer |
| PackFormat.OnDisk | src/pack.rs:93-116 | a pack starts with the letters MJPACK01, and before the compressed bytes at each location handed out lie the record's sixteen byte id, its raw size and its compressed size, each in four bytes with the most significant first |
| PackFormat.ScanPack | src/pack.rs:344-401 | a file too short for the magic and a file with another magic are refused with different errors; any other file scans to the entries it holds up to the first that is not whole, and the scan ends |
| PackFormat.ScanIsExact | src/pack.rs:333-401 | scanning the file of a pack returns exactly the (id, location) pairs that writing it handed out, under the flat key of the file's name: which is the key they were written with exactly when that was flat |
| PackFormat.ScanOfTruncated | src/pack.rs:344-401 | a pack cut anywhere past its magic scans to exactly the records that are still whole |
| PackFormat.TornEntryIsDropped | src/pack.rs:344-401 | a tail that is a proper part of one more entry adds nothing to the scan |
| PackFormat.ScanOfZeroTail | src/pack.rs:344-401 | any number of zero bytes after a complete pack adds nothing to the scan |
| PipelineSafety.BatchIsSound | src/indexer.rs:384-466 | every row of a batch carries the id, source, time and metadata of one parseable message that was appended, and its two locations read back that message's raw bytes and protobuf |
| PipelineSafety.BatchIsComplete | src/indexer.rs:384-466 | every parseable message that was appended has its row in the batch |
| PipelineSafety.AppendAllSplits | src/indexer.rs:638-648 | appending two fetches one after the other builds the same pack and rows as appending them at once |
| PipelineInvariant.CommitKeeps | src/indexer.rs:692-752 | once the rows of everything in hand are inserted, moving the committed offset to the cursor leaves nothing below it missing |
| PipelineInvariant.WorkerStepKeeps | src/indexer.rs:533-752 | each step of a worker, whatever becomes of the call it makes, keeps the pack and rows in hand equal to what appending the messages between the committed offset and the cursor makes |
| PipelineInvariant.KeysStayApart | src/pack.rs:203-210 | no two workers ever hold a pack of one key, and the bucket holds nothing that was not uploaded |
| Pipeline.RoutedByNumber | src/kafka.rs:509-511 | a record's partition is the remainder of its id, read as a big endian number, by the number of partitions |
| PipelineInvariant.RunKeeps | src/indexer.rs:533-752 | every state of every run of producers, workers, crashes and the collector satisfies the invariant |
| PipelineInvariant.NothingCommittedIsMissing | src/indexer.rs:533-752 | in every run each parseable message below the committed offset has an index row under its own sorting key whose locations read back exactly its raw bytes and its protobuf from an uploaded object, and its seat rows |
| PipelineInvariant.NoRowIsInvented | src/indexer.rs:692-752 | conversely every row ever inserted describes a message of the log and reads back |
| PipelineInvariant.RowsInHandAreExact | src/indexer.rs:638-752 | the rows in hand are exactly those of the parseable messages from the committed offset to the cursor |
| PipelineConvergence.BatchAgrees | src/indexer.rs:384-466 | within one batch the last row of a record is that of its last message |
| PipelineConvergence.InsertSettles | src/indexer.rs:692-752 | inserting what lies between two offsets leaves the last row of every record, all of whose messages lie below the second, that of its last message |
| PipelineConvergence.ActionKeepsLogOk | src/kafka.rs:139-271 | messages of one record are routed to one partition and carry one source and one time, whatever is produced, re-indexed or produced again |
| PipelineConvergence.ReplayConverges | src/indexer.rs:692-752 | in every run no step of which cut a replay short, in a state whose stored offset is not past the end of the last insert, when all of a record's messages lie below the committed offset the view shows exactly one row for it, and that row describes its last message |
| PipelineConvergence.ConvergesWhenRepliesArrive | src/indexer.rs:692-752 | as long as no commit is applied with its reply lost, this holds in every state of every run, through any crashes and redeliveries |
| LostCommitReply.LostReplyHidesReindex | src/indexer.rs:722-752 | a run that ends with nothing left to do and the view showing the original in place of its re-index |
| LostCommitReply.ConvergesIffRepliesArrive | src/indexer.rs:722-752 | replays converge in all runs if and only if commits never lose a reply after being applied |
| PipelineGc.RunKeepsGc | src/gc.rs:21-78 | when the grace period covers the delays, every state of every run has every shown row's object in the bucket |
| PipelineGc.ShownRowsReadBack | src/gc.rs:21-78 | under the same condition every row the view shows reads back its message's bytes from an object that is there, whatever the collector deletes between any two steps of the workers |
| PipelineGc.ShortGraceDeletesShown | src/gc.rs:21-78 | with any shorter grace period there is a run that deletes an object the view names |
| PipelineGc.CollectorIsSafeIffGraceCovers | src/gc.rs:21-78 | the collector is safe in all runs if and only if delay, query gap and skew together stay below the grace period |
| PackWorkers.FollowIsRun | src/indexer.rs:533-605 | whatever one worker does between two states of a run is itself a run of the whole system |
| PackWorkers.PackWorker.Append | src/indexer.rs:638-647 | appending a fetched batch does to the worker what the fetch step does, opening a pack under a fresh key only when something can be read; it fails only for a batch that does not fit or that the disk will not take, and then leaves the services untouched |
| PackWorkers.PackWorker.AppendBatch | src/indexer.rs:384-466 | the loop over one batch builds exactly the pack bytes and rows of the specification, dropping what does not parse |
| PackWorkers.PackWorker.Seal | src/indexer.rs:676-752 | the hand-over syncs and reads back the file and makes its calls in order as far as each is answered, succeeds exactly when all are and the object is whole, and then the committed and stored offsets are the cursor; otherwise it leaves what the steps it made leave |
| PackWorkers.PackWorker.Upload | src/indexer.rs:692-712 | the upload and size check pass exactly when the put was answered and the bucket holds as many bytes as were sent |
| PackWorkers.PackWorker.IndexAndCommit | src/indexer.rs:713-735 | rows, then seat rows, then the offset: each only once the one before it was answered |
| PackWorkers.PackWorker.ThrowAway | src/indexer.rs:743-752 | everything not committed is thrown away and the cursor is the last committed offset again |
| PackWorkers.PackWorker.Turn | src/indexer.rs:533-605 | one turn of the loop is the fetch step and then, exactly when the process stops or the pack is full, old or idle at the end of the log, the calls of a hand-over in order as far as each is answered; only a batch that does not fit or that the disk will not take is thrown away instead; so no pack with something in it stays open that has reached the size limit, the age limit, or the idle limit after a fetch of nothing, and a turn that is not stopping hands over none short of all three |
| ReplayLoop.OnStart | src/replay.rs:159-177 | dealing a hand credits hand and dealer counters, keeps the run of the dealer and starts the scratch state afresh |
| ReplayLoop.OnReach | src/replay.rs:192-214 | a declaration is counted once a hand, as the first or as a chase of everyone who declared before, with the turn it came on |
| ReplayLoop.OnWin | src/replay.rs:222-277 | a win credits the winner and, when it is someone else, the payer, exactly as the hand so far says |
| ReplayLoop.OnDraw | src/replay.rs:278-294 | a drawn hand credits exactly what it reports for each seat |
| ReplayLoop.OnEnd | src/replay.rs:295-315 | the end of a hand settles the last reported changes once, less the stick of each declaration |
| ReplayLoop.WindowOneMore | src/replay.rs:183-221 | a seat's one-shot window is open after an event exactly when it has just declared, or was open and neither has anyone called nor has the seat discarded |
| ReplayLoop.Settlement | src/replay.rs:425-448 | the settled scores per seat, as far as the highest seat listed, the last entry of a seat deciding; and nothing comes back exactly when a seat is past what a list can hold |
| ReplaySpec.LongestRunIsLongest | src/replay.rs:167-176 | the longest dealer streak is the length of some run of consecutive hands dealt by the seat, and none is longer |
| ReplaySpec.LastScores | src/replay.rs:316-341 | the scores that decide the game are those of the last event whose scores the scorer takes |
| ReplayGame.PassIsSumOfHands | src/replay.rs:111-355 | for every stream and seat, the counters kept in one pass are the hands of the stream, cut at each deal and scored on their own, added up |
| ReplayGame.Replay | src/replay.rs:111-355 | for every stream the loop returns exactly the hand-by-hand score: players, counters, streaks, final scores, placements and the detail flag, or nothing when there is no game or no hand; and it panics exactly on a game that has a win by a seat that declared whose search for a hit comes to an indicator that does not split, or a final result with a seat past what a list can hold |
| ReplayGame.RedMarkAlonePanics | src/replay.rs:485-502 | a game on which it panics |
| ReplayGame.HugeSeatPanics | src/replay.rs:425-433 | a game with a hand that panics on the seat of its final result, however much memory there is |
| ReplayGame.Placements | src/replay.rs:342-348 | sorting the seats gives each, in the one byte it is kept in, the placement that counting the seats ahead of it gives |
| ReplayGame.RankIsCount | src/replay.rs:342-348 | in any order ranked by score and seat, the position of a seat is the number of seats ahead of it |
| ReplayCounts.UraHitIff | src/replay.rs:459-502 | a win has an ura hit exactly when some indicator points at a tile of the hand or at the winning tile: in a suit to the next number and from nine to one, among the winds and the dragons to the next in their cycle, red marks left out of account |
| ReplayCounts.UraPanicsIff | src/replay.rs:459-502 | the search for a hit panics exactly when it comes to an indicator that does not begin with a single byte once its red marks are gone, and no earlier one hits |
| ReplayCounts.ScoredCounts | src/replay.rs:222-277 | of every returned game a seat's wins, one-shot wins and ura hits are the numbers of its wins in the stream, of those after a declaration in the hand that name yaku 30 or, where none are named, come before any call and any discard of the winner, and of those after a declaration with an indicator that points at one of its tiles |
| ReplayCounts.ScoredMostHan | src/replay.rs:269-276 | a seat's most han is the greatest it won with other than by a yakuman, in sixteen bits, and nothing when there is no such win |
| ReplayCounts.DetailedIff | src/replay.rs:140-150 | a returned game is detailed exactly when a win lists its yaku, a draw says who was tenpai, or the end has a result |
| ReplayCounts.ScoredFinals | src/replay.rs:316-341 | a seat's final score is its entry in the last scores that a deal, a win by a seat, a draw, or an end with a score for every seat reports, or zero; and it is busted exactly when that is below zero |
| ReplayLaws.RiichiSplits | src/replay.rs:192-214 | per seat, declarations are those that came first plus those that chased |
| ReplayLaws.ChasedIsPairs | src/replay.rs:192-214 | over any game the seats are chased k(k-1)/2 times in all for each hand with k declarations |
| ReplayLaws.WinsAreTsumoOrDealIn | src/replay.rs:232-268 | over any game total wins are total drawn wins plus total deal-ins |
| ReplayLaws.PointsAreConserved | src/replay.rs:278-315 | over a well-formed game the seats' net points sum to minus a thousand times the sticks left on the table |
| ReplayLaws.WinIsWhatOthersPaid | src/replay.rs:249-268 | in a hand with one win the winner's value is exactly what the other seats paid, not counting their sticks |
| ReplayLaws.PlacementsRank | src/replay.rs:342-347 | before they are cut down to a byte, placements number the seats from one without a repeat, and a seat is placed before another exactly when it has more points or as many from a lower seat |
| ReplayLaws.ScoredTableLaws | src/replay.rs:111-355 | of every game the scorer returns: each seat's declarations are first ones or chases, the seats are chased once for each pair of declarations in a hand, and total wins are drawn wins plus deal-ins |
| ReplayLaws.ScoredPlaces | src/replay.rs:342-355 | no two seats of a returned game share a place if and only if there are at most 256; and the places follow the final scores, ties to the lower seat, if and only if there are at most 255 |
| ReplayLaws.ScoredPointsAreConserved | src/replay.rs:278-315 | and when its hands are well formed, the net points of its seats sum to minus a thousand times the sticks left on the table |
| Claims.GameKeysDiffer | src/indexer.rs:67-80 | two games never share a key |
| Claims.CallerKeysDiffer | src/indexer.rs:67-80 | two records without a game share a key exactly when their source and the caller's key are the same, for sources without a zero character |
| Claims.CallerKeyIsNoGame | src/indexer.rs:67-80 | and a game's key is one of theirs only for the source that games are filed under, with the game's uuid as the caller's key |
| Claims.WhatKeysPromise | src/catalog.rs:253-281 | what a record is claimed under, spelled out; only a caller's own key holds the caller to the content it was first used with, and only such a key can expire |
| Claims.ClaimGoesIff | src/catalog.rs:393-407 | a claim stays as it is until it is released under its own id or, for a key that can expire, pruned more than thirty days old |
| Claims.ClaimMadeIff | src/catalog.rs:432-470 | and is made only by an insert that finds its key free, with the id, content and time of that insert |
| Claims.NoClaimDangles | src/indexer.rs:161-322 | over all interleavings of requests and prunes, however produces fail, a claim outlives its request only when its record is in the topic |
| Claims.NoClaimDanglesIff | src/catalog.rs:396-521 | that holds in all runs if and only if the insert of a claim always reports back, releases succeed and no process dies in between |
| Claims.RunKeepsGames | src/indexer.rs:161-322 | when a failed produce lands nothing, in every state each game has at most one record id in the topic or on its way there, and it is the one claimed |
| Claims.OneRecordPerGameIff | src/indexer.rs:264-322 | each game reaches the topic under one record id in all runs if and only if a produce that fails lands nothing |
| Claims.TwoRecords | src/indexer.rs:264-322 | a run in which a lost acknowledgement puts one game in the topic twice |
| BatchImport.Store.Claim | src/catalog.rs:432-470 | a claim is new exactly when nobody has its key; a taken key is left as it is and answers with its id, or as a conflict when the caller's content differs; and the claim is pending exactly when whoever had the key gave it back in between |
| BatchImport.Store.ProduceClaimed | src/indexer.rs:264-322 | on success every new record is in the topic; on failure exactly the claims of this batch are released, whatever part of it landed |
| BatchImport.Store.ClaimRecord | src/indexer.rs:161-222 | a record is claimed under its own key, its game's or its source's and caller's, exactly when it parses, the store answers and nobody has the key; it is a duplicate exactly when somebody has and the caller's promise about the content is kept; each error has its cause, and then the claims are left alone |
| BatchImport.Import.Visit | src/api.rs:961-1067 | one member of the archive is ignored, accepted, a duplicate or rejected as the specification says, or ends the walk exactly where it says; every claim stays accounted for |
| BatchImport.Import.ProduceBatchChunk | src/api.rs:1086-1094 | a flush empties the chunk: acknowledged, or its claims released |
| BatchImport.ProcessBatchArchive | src/api.rs:922-1094 | on every way out each claim the import made is acknowledged by the topic or released, no claim that was there before is touched, and chunks of several records stay within the byte bound; the import ends at the first member that stops it, with its error, and what is then claimed, with which content, is exactly what was and what had been produced by then; one that goes through claims every accepted member and returns how many were accepted, duplicates and rejected |
| BatchImport.TakesTheFirst | src/api.rs:981-1045 | a member is accepted exactly when the walk gets past it, it is a file of a size in bounds, stored and inflated, parses, the store answers, nobody had claimed what it is before, its game or, for one without a game, its path in this batch, and no such member came earlier that is the same |
| BatchImport.SameIdentity | src/api.rs:981-1045 | two members are the same exactly when both have one game or both have none and lie on one path, so members without a game on different paths never stand in each other's way |
| BatchImport.RepeatsWhatIsHeld | src/api.rs:981-1045 | a member is a duplicate exactly when it is a record, the store answers or loses a race, and its identity was claimed before or by an earlier member, by a member without a game with this very content |
| BatchImport.SucceedsIff | src/api.rs:961-1068 | an import goes through exactly when there are not too many members, none is broken, the store answers or merely loses a race wherever it is asked, and every produce of a chunk that is not empty is acknowledged |
| BatchImport.RetrySendsTheRest | src/api.rs:1082-1085 | importing the archive of an import that ended anywhere again, with a store that answers: of the members the walk gets past, what had been produced is a duplicate, and accepted is exactly the first good one of each key that had not; what is claimed afterwards is what was and the keys of the good members up to what this import produced, which is all of them when it goes through |
| ProduceChunks.Chunk | src/kafka.rs:762-779 | the chunks are the records in order, each within the bound or a single record, and none could have taken the record after it |
| ProduceChunks.FewestChunks | src/kafka.rs:762-779 | no other split that keeps the order and the rule uses fewer requests |
| ProduceChunks.Route | src/kafka.rs:538-542 | each partition gets its own records in order |
| ProduceChunks.RoutingLosesNothing | src/kafka.rs:538-542 | the partitions together hold exactly the batch |
| ProduceChunks.RoutingKeepsOrder | src/kafka.rs:509-511 | two messages of one record land in one partition, in order |
| ProduceChunks.Topic.SendChunks | src/kafka.rs:543-552 | chunks are sent until one is not answered; success is exactly that all were, and then the log has grown by all of them |
| ProduceChunks.Topic.ProduceBatch | src/kafka.rs:538-553 | a batch that succeeds adds to each partition exactly its share in order; one that fails has added the first records of each share |
| KeysetWalk.Qualifies | src/catalog.rs:2719-2721 | the time bound beside the tuple excludes nothing the tuple lets in |
| KeysetWalk.Page | src/catalog.rs:600-711 | for any page size a page is the next rows in descending order of time and then id, and every qualifying row is on it or below the cursor it names; it names one only when it is full and there is more |
| Backfill.Rewritten | src/backfill.rs:92-103 | a row, rewritten or not, ends up with the derived rule and the derived time where the bytes give one and with its own where they do not; a rewrite keeps the location, clears nothing, and differs from the row it rewrites |
| Backfill.RewriteSettles | src/backfill.rs:92-103 | a row is rewritten only when its rule or its time is not the one its bytes give, and then each is that where there is one and what it was where there is none |
| Backfill.SettledInColumns | src/backfill.rs:92-103 | a row that a rewrite went over and that nothing is left to rewrite of has the rule and the time its bytes give, wherever they give one, and in everything else is what it was |
| Backfill.CompletePass | src/backfill.rs:117-259 | after a pass that read every row each row has the rule and the time its bytes give, wherever they give one; and when no row was replaced while its page was worked on, in everything else it is what it would be without the pass |
| Backfill.RewritePage | src/backfill.rs:207-237 | the batch is exactly the rewrites of the page's rows in order, and the counts are those of the rows that could not be read, that did not parse, and that did not say what their bytes say |
| Backfill.RewriteShows | src/backfill.rs:238-241 | after the insert a rewritten row shows in the place of the old one |
| Backfill.OthersStay | src/backfill.rs:238-241 | every other row of the index is left as it was |
| Backfill.PageWritten | src/backfill.rs:186-259 | the insert adds no key, settles a page that was read in full, and keeps every location exactly when no rewritten row was given another one since the page was asked for |
| Backfill.StaleRewriteHidesReindex | src/backfill.rs:190-241 | a re-index that lands in that window is pointed back at the old location |
| Backfill.Catalog.Scan | src/backfill.rs:186-259 | beside any concurrent inserts and rewrites the pass reads every row it started with exactly once, newest first; if all could be read every row ends up with the rule and the time its bytes give, and its counts are those of the rows that did not parse and of those rewritten; an index with nothing to rewrite is left as live writers made it; and it fails only at a page query or an insert that is not answered |
| Backfill.Catalog.RewriteRecordMetadata | src/backfill.rs:117-184 | the marker is written only by a pass that read every row, so a marker written here means that nothing is left to rewrite; a pass known to be done, or of which that cannot be told, changes nothing |
| KeysetWalk.SomeQueryIsLawful | src/catalog.rs:600-711 | the ordered, bounded answer that paging assumes of the index exists for every table |
| Reconvert.ConvertPage | src/backfill.rs:713-776 | the rows of a page are converted and produced in the order given up to the first that cannot be produced; the messages are those of the rows that convert, each with its own conversion, and the rows that could not be read and those that did not convert are counted |
| Reconvert.Corpus.Walk | src/backfill.rs:704-795 | beside any concurrent writers, and in whatever order the reads of a page end, a walk that gets to its end has visited every row that kept a protobuf throughout once, newest first, and produced exactly one message for each visited row with a protobuf that could be read and converted, carrying that conversion, and its counts are those of the rows rewritten, not read and not converted; one that fails has produced some of these, and fails only at a page query that is not answered or a row whose message cannot be produced |
| Reconvert.OrderIsNoMatter | src/backfill.rs:716-739 | rows handled in another order give the same messages and the same count of unread ones |
| Reconvert.Corpus.ReconvertStoredRecords | src/backfill.rs:657-702 | the marker is written exactly when the walk gets to its end and the write lands, whatever could not be read; such a pass has read every row exactly when its count of unreadable rows is zero; a pass known to be done, or of which that cannot be told, changes nothing |
| Reconvert.MarkedUnread | src/backfill.rs:676-692 | a pass that is marked with its one row unread |
| WatchQueue.GivenUpLate | src/managed_watch.rs:1018-1117 | a game is given up only right after a failed try, more than 10800 s after it was queued |
| WatchQueue.FetchedSettled | src/managed_watch.rs:1006-1013 | a game is never fetched before it has been queued for 120 s |
| WatchQueue.Watcher.Enqueue | src/managed_watch.rs:989-1002 | every tracked game that is no longer live becomes pending, and a game that is pending keeps the time it was queued |
| WatchQueue.Watcher.PersistState | src/managed_watch.rs:1471-1492 | the file holds both queues as they are, or what it held before |
| WatchQueue.Watcher.Restart | src/managed_watch.rs:1453-1470 | after a crash at any point the queues are those of the file, and every game that any version of the file held is in them or was closed after that version |
| WatchQueue.Watcher.TryGame | src/managed_watch.rs:1007-1121 | exactly when one try takes a game off the queue, ends the session, or is not made yet |
| WatchQueue.Watcher.TryAll | src/managed_watch.rs:1006-1123 | a sweep over the queue loses no game, tries every game that has settled, and leaves none that has waited too long |
| WatchQueue.Watcher.Round | src/managed_watch.rs:961-1123 | whatever fails in a round, a game that was tracked or pending still is, or was closed in it; after one that goes through the file holds exactly what is in memory |
| WatchQueue.Watcher.Live | src/managed_watch.rs:948-1123 | over any sequence of rounds, reconnects and crashes, every game that any version of the file holds is in the queues, in memory and in the file, unless it was closed after that version was written |
| WatchQueue.Watcher.LeftTheQueuesFor | src/managed_watch.rs:1006-1117 | and one that is in no queue was, after that version, ingested, or given up right after a failed try more than 10800 s after it was queued |
| OutboundSlots.LeastFree | src/mihomo.rs:173-176 | the slot found is free, allowed and the lowest such; none is found only when all are taken |
| OutboundSlots.RefiledKeeps | src/mihomo.rs:158-187 | slots stay injective, in range and off the reserved port; a node still wanted keeps its slot; only wanted nodes have one; and a wanted node is left out only when every port is in use |
| OutboundSlots.AllFiledIffTheyFit | src/mihomo.rs:108-187 | every wanted node gets a slot if and only if there are no more of them than 57634 |
| OutboundSlots.SameNodesSameSlots | src/mihomo.rs:158-187 | re-filing the same nodes in any order changes nothing |
| OutboundSlots.RefiledWithin | src/mihomo.rs:158-187 | re-filing keeps every slot within a bound plus the reserved slots below it, when the wanted nodes are no more than the bound |
| OutboundSlots.Operate | src/mihomo.rs:158-187 | over any sequence of operations, whatever fails in them, slots stay sound, a node that every operation wants never changes slot, and no slot exceeds the most nodes that held one at a time plus the reserved slots below it |
| OutboundSlots.FileNodes | src/mihomo.rs:161-187 | the loop, which carries the taken slots along and stops when none is free, files exactly as filing each node against a fresh look would |
| OutboundSlots.OutboundManager.Refile | src/mihomo.rs:161-187 | the new assignment is the re-filed one, and it reports a change exactly when there is one |
| OutboundSlots.OutboundManager.SetOutboundNodes | src/mihomo.rs:738-771 | a wanted or leased node keeps its slot; a change is saved and not ready; and ready means that the proxy sends every slot out of its node, unless the file could not be written, and then exactly when each new node is what its slot already goes out of |
| OutboundSlots.OutboundManager.LeaseOutboundNodes | src/mihomo.rs:782-790 | a lease replaces the one before and moves no node that is held or leased |
| OutboundSlots.OutboundManager.ReleaseOutboundNodes | src/mihomo.rs:792-795 | afterwards only held nodes have slots, and those they had |
| OutboundSlots.OutboundManager.ApplyRuntimeConfig | src/mihomo.rs:940-1010 | the configuration is loaded up to twelve times, until the proxy answers and shows the lane groups; then it is pointed at the nodes: ready exactly when it answered for every slot, and then every slot goes out of its node; when no attempt gets through the groups are those of the last reload carried out and readiness is as it was, which is true exactly when none was or that one brought every slot back to its node |
| OutboundSlots.ReloadUnseenLooksReady | src/mihomo.rs:940-975 | reloads that land without the lane groups being seen leave a slot ready that is back on the shared group |
| OutboundSlots.OutboundManager.PortForNode | src/mihomo.rs:724-730 | a node has a port exactly when slots are ready and it has one, and then it is 7900 and its slot: in range, not reserved, and no other node's |
| OutboundSlots.OutboundManager.Restart | src/mihomo.rs:640-659 | a new process has the slots of the file and no lease |
| OutboundSlots.UnsavedSlotsLookReady | src/mihomo.rs:738-771 | a failed write of the slot file leaves slots ready that the proxy has not heard of |
| VersionSearch.SearchVersionFloor | src/managed_watch.rs:758-791 | for any answers the result is accepted and is the start or has a rejected predecessor, in at most 19 logins; for a server that accepts everything above what it accepts it is the least accepted version, and the search fails exactly when nothing up to 4096 above the start is accepted |
| VersionSearch.FormatThenParse | src/managed_watch.rs:570-587 | parsing what was formatted gives the version back, for every 32 bit value |
| VersionSearch.ParsesVersionIff | src/managed_watch.rs:570-581 | a text parses as a version exactly when it is a zero, a minor version of 32 bits and a patch below a thousand with dots between; the version is the minor one times a thousand and the patch, in 32 bits |
| XmlText.Unescape | src/objects.rs:542-574 | the loop over ampersands replaces the five entities from left to right and refuses any other |
| XmlText.UnescapeEscaped | src/objects.rs:542-574 | reading an escaped text gives it back, whichever of the optional entities the writer uses |
| XmlText.FindTag | src/objects.rs:536-540 | the text scanner finds a tag exactly where the document has it first |
| XmlText.ElementIn | src/objects.rs:536-540 | and reads the text between it and the tag that closes it |
| XmlText.ElementIff | src/objects.rs:536-540 | of any text at all, an element is what stands between its first opening tag and the first closing tag after that, and there is none where one of them is missing |
| XmlText.SplitApart | src/objects.rs:497-498 | splitting takes a text apart at every occurrence of a pattern and loses nothing |
| Listing.ParseListPage | src/objects.rs:495-532 | a page reads as its entries and token, and not at all when one block, an entity or the token of a truncated page is missing or wrong |
| Listing.PageIff | src/objects.rs:495-532 | a text reads as a page exactly when each of its blocks has the key, the size in 64 bits and the time of its entry, and the token reads where the page says in any case that the listing goes on |
| Listing.TrimIs | src/objects.rs:502-521 | trimming takes off the white space of Unicode at either end and nothing else |
| Numerals.ParsesIff | src/objects.rs:502-506 | a text reads as a number exactly when it is that number in decimal, below the limit, with any zeros and perhaps a plus sign before it |
| Listing.PageReads | src/objects.rs:495-574 | whatever a server puts between the elements and however it escapes keys, scanning a page gives back every entry in order and the token |
| BucketListing.List | src/objects.rs:258-296 | on success the result is every page from the first to one that is not truncated, each asked for with the token of the one before; it fails only for a request that failed, a page that does not read, or a token that repeats |
| BucketListing.BucketIsListed | src/objects.rs:258-296 | a bucket that stays as it is while it is listed is listed whole |
| CollectOrphans.OrphansExact | src/gc.rs:50-78 | the orphans are exactly the listed pack objects that no row names and that are at least the grace period old, and none when the index names nothing |
| CollectOrphans.Bucket.Collect | src/gc.rs:21-44 | nothing is deleted but orphans, nothing at all when the index or the listing did not answer or the index was empty; what is gone is exactly the orphans up to the first delete that was not answered, and that one if only its reply was lost; a run that reports success has deleted every orphan it was shown; a run leaves the bucket as it was exactly when none of what it took away was there |
| CollectOrphans.FailedRunDeletes | src/gc.rs:21-44 | a run that fails with an orphan deleted |
| CollectOrphans.CollectIsRun | src/gc.rs:21-78 | with producers, workers and the clock going on between any two of its calls, and wherever its listing or a delete fails, what a run of the collector does to the bucket is done by query, list, decide and delete actions of the whole system, so the results about all runs hold of it |
| CollectOrphans.CollectKeepsShown | src/gc.rs:21-78 | when the grace period covers the delays, after such a run every row the view shows reads back from an object that is still there |
| Sweep.PageHolds | src/paipuya.rs:817-842 | a page holds every game before its newest second, and every game there is when it is not full |
| Sweep.FullPageInOneSecond | src/paipuya.rs:849-862 | a full page that has not moved on is all one second, so stepping over that second is all that is lost |
| Sweep.PageCovers | src/paipuya.rs:817-867 | keeping a page's games covers everything up to where the next page starts |
| Sweep.SweptExactly | src/paipuya.rs:766-914 | a bounded sweep keeps exactly the wanted games of its window from where it started to where it got that a page can show, and its end is past the window or less than ten seconds before it |
| Sweep.LastSecondsAreLost | src/paipuya.rs:772-800 | of the wanted games of the window that a page can show, a sweep that ends on a page that is not full keeps all; any other keeps those before the cursor it ends with and none after it |
| Sweep.LastSecondsUnasked | src/paipuya.rs:772-800 | a sweep that ends well without a game of its last ten seconds |
| Sweep.Mode.SyncMode | src/paipuya.rs:766-914 | the cursor only moves on; every listed game worth keeping between the start of the stretch and the stored cursor is kept, but those past a page of games within one second, whichever call fails; a bounded sweep that ends well has kept exactly what the specification keeps, and covers its window exactly when its last page was not full; and it ends |

## Left out

- HTTP handlers, authentication, tar and gzip, SQL and YAML text, JSON and protobuf parsing, compression, hashing, request signing and mail: libraries and plumbing that are not modelled, or parameters with stated laws.
- That the row inserted last is the one shown for a sorting key is an assumption about the index table, whose definition is not part of this model; so is that one insert statement lands whole or not at all.
- Retention that removes messages above the committed offset, and topics that are made anew: the log is assumed to be intact.
- Boot recovery, `adopt_game_claims`, `drain`, `seal_backoff` and `month_blocks`.
- The backfill's inserts are not part of the collector's model: `PipelineGc` covers the rows the workers insert.
- Local staging files: a pack is read from the bucket once its rows are inserted.
- Time does not pass inside one hand-over of `PackWorkers.PackWorker.Seal`; the step system of `PipelineGc` lets it pass between any two steps.
- ReplayGame.Replay: how many entries memory lets a list of pairs have is one number for the whole game, and running out of memory counts as a panic; counters and points are unbounded integers, whose overflow wraps in the release build this is the model of; and a JSON field of the wrong type counts as absent.
- CollectOrphans.CollectIsRun: the listing is assumed to show no key twice, and to take no longer than the query gap.
- ReplayLaws.WinIsWhatOthersPaid: stated for hands with one win, because the code values each win of a hand from the same pending changes.
- BatchImport.ProcessBatchArchive: a claim whose reply is lost and a release that fails are modelled in `Claims` only; opening the archive and the list of error texts are left out.
- ProduceChunks.Topic.ProduceBatch: which of several connections a request goes down is left out, as nothing reads the order between requests.
- VersionSearch.SearchVersionFloor: versions are unbounded, so an escalation past 32 bits does not wrap, and the server's answer to a version does not change during a search.
- KeysetWalk.Page: two rows of one time and id but different sources do not occur, since a record's id fixes its source; with two such rows a page that ends between them would skip one. Filters are left out.
- Backfill.Catalog.Scan: finitely many rows are written while it runs, and what other writers insert says what its bytes say; the passes over game claims and player games, which share its loop, are left out.
- Reconvert.Corpus.Walk: a page is filtered by the kept protobuf only; whether a row reads back does not change during the pass; waiting while the topic is backed up is left out.
- WatchQueue.Watcher.Round: re-fetch requests served between rounds, the discovery log and pacing delays are left out; the history starts with no file.
- OutboundSlots.OutboundManager.Restart: the slot file is the one this code wrote; a file edited by hand is not covered.
- OutboundSlots.OutboundManager.ApplyRuntimeConfig: the flag for the lanes and the waits between attempts are left out.
- OutboundSlots.OutboundManager.PortForNode: trimming of node names and the proxy URL are left out, and so is the poll that answers readiness again.
- Listing.PageReads: the layout puts the status before the entries and the elements of an entry in the order of the service's own documentation; time stamps are a pair of functions that agree.
- BucketListing.List: the server answers finitely many requests, without which the loop need not end.
- Sweep.Mode.SyncMode: the catalogue does not change during a sweep and is served in ascending whole-second order; games whose start is not a representable time are left out.
- Traffic sampling, subscription handling, node multipliers, log redaction, account forms, the web console and Mahjong Soul logins.
