# openML / openMSYNC verification model

A Dafny model of the parts of the openML embedded database and of the openMSYNC
sample clients whose behaviour is hardest to see from one function at a time, with
proofs over every input, every run or every reachable state. Check it with
`dafny verify dfyconfig.toml`.

One file per component:

* `DbLock.dfy`: the database lock. Any number of tasks, one statement per step, the
  condition-variable and the polling branch, spurious wake-ups and overtaking.
* `RecordCodec.dfy`, `UploadBatches.dfy`, `ServerReading.dfy`: how a contact becomes
  text, how Java's `split` takes text apart, how encoded records are cut into messages,
  and how the server takes the messages apart.
* `MsyncTable.dfy`, `ServerRows.dfy`, `SyncRuns.dfy`: the change marks kept by the
  storage engine, what the server holds and sends, and whole runs of local edits and
  sync sessions. The server keeps what it reads in the messages; an acknowledgement may
  be lost, a commit may fail behind one, and what the client makes of the records sent
  to it is left open.
* `UploadTexts.dfy`, `DownloadStreams.dfy`, `SessionAgreement.dfy`, `SyncSession.dfy`:
  the two clients' session code and the messages it exchanges. Every native call and
  every statement takes its answer from a script, and every item received from an
  inbox, so any of them may fail. The clients differ in where they flush and in what a
  statement answers: the number of rows with the Android client, 0 with the desktop
  client. `SessionIsEvent` ties the code to the runs, `SuccessIsRightExactly` and
  `DesktopSuccessIsRight` say what its success is worth.
* `HandlePool.dfy`: connections and statement slots of the JNI layer over a library
  whose live objects are tracked.
* `SegmentGrowth.dfy`: growing the data and index free lists by whole segments.
* `StatementSplitter.dfy`: the SQL console's statement reader.
* `ContactIds.dfy`, `BookRuns.dfy`: the numbering of contacts over adds, edits, removals
  and synchronisations with failing reads and writes, and why the keys of new contacts
  are new to the table.
* `Atoll.dfy`, `HeapLedger.dfy`, `ErrorRing.dfy`, `WideStrings.dfy`,
  `NullBitmap.dfy`: bounded arithmetic and structures updated in place.

State that the source updates in place is a class whose methods are proved against
functions on values; what those functions promise is proved about them in lemmas.

Bodies that a modelled function calls are followed where the repository has them:
the depth wrapper of the lock in `openML/src/server/common/mdb_compat.c` (lines
1660-1905), the slot marks in `openML/src/server/storage/mdb_Collect.c` (lines 940-942,
1405-1412, 1845-1860), the flush in `openML/src/server/API/mdb_dbi.c` (lines
2438-2605), the upsert in `openML/src/server/API/mdb_dbi_cursor.c` (lines 1452-1637),
segment allocation in `openML/src/server/storage/mdb_Mem_Mgr.c` (lines 846-1293) and
`openML/src/server/storage/mdb_Index_MemMgr.c` (lines 490-610), statement and result
ownership in `openML/src/client/sql_iSQL.c` (lines 3208-3239, 3984-4040, 4994-5048),
and the server's reading of an upload in `openMSYNC/server/mSyncDBCTL/src` (`ProcessStmt`
and `GetParameters` in `SQLProcessing.cpp`).

## Where the code falls short of its intent

Each of these is stated by a lemma or a method's contract, with the exact condition
where there is one.

* An upload as new that the server kept, while the client ends without a flush, leaves
  the row marked as new; deleting it before an acknowledged session has cleared the
  mark leaves it at the server for good (`DeleteStrandsExactly`, `StrandedStays`, `DeletionsDecide`, `DeleteInDoubtStrands`,
  `UnflushedSessionStrandsADelete`). The late flush of the desktop client leaves that
  open for a whole download. The early flush of the Android client closes it unless the
  flush itself fails, which the client does not look at, or the acknowledgement is lost
  (`FlushedRunsAreHarmless`).
* Nothing keeps a delimiter out of the fields. The server reads what was uploaded if and
  only if there is none and no upload begins with an oversized record (`ToldExactly`).
  It takes a record with one field delimiter too many when the last field is empty, with
  the fields behind it shifted, and the flush then leaves the row unmarked (`ReadsExactly`,
  `ShiftedRecord`, `UnreadableRowIsFlushed`; `GetParameters` in
  `openMSYNC/server/mSyncDBCTL/src/SQLProcessing.cpp`, lines 975-1055). So every statement
  that the two sides agree asks for readable uploads.
* The server writes its acknowledgement before it commits
  (`openMSYNC/server/mSyncDBCTL/src/state.cpp`, lines 560-603). When the commit then
  fails, the flush still clears every mark (`AcknowledgedButNotKept`).
* The Android client's `DownloadDelete_contact` adds deleted rows, malformed records and
  failed statements into one number, so a session can succeed while a row the server
  deleted stays here unmarked: exactly the rows whose deletion failed
  (`SuccessIsRightExactly`, `FailedDeleteStays`, `FailedDeleteHappens`). The desktop
  client's adds nothing for a deleted row, since its statements answer 0
  (`openMSYNC/sample/Java/com/openMSYNC/app/JDemoLocalDB.java`, lines 443-483): there only
  a malformed record can hide a failure (`GoesThroughExactly`, `NothingFailed`,
  `MalformedHidesFailure`), and a success leaves every key right
  (`DesktopSuccessIsRight`).
* The client takes a broken or silent connection for the end of a stream
  (`openMSYNC/client/mSyncClientJNI/com_openMSYNC_mSyncClientJNI.c`, lines 160-176 and
  246-265, answers null for both), so a session succeeds on it (`SilenceGoesThrough`).
* An upsert marked as synchronised, over a row already synchronised, marks that row for
  upload again (`UpsertLeavesMarkExactly`).
* An upload of an oversized first record sends an empty message (`BatchSizes`), which the
  server takes for a timeout and refuses (`openMSYNC/server/mSyncDBCTL/src/state.cpp`,
  lines 58-110; `ToldExactly`).
* A released result is not freed by `ML_clearrow`; it stays with its statement
  (`ClearRow`).
* Growing segments: the limit that bites is a third of SEGMENT_NO, below the one tested
  on entry (`DataRunComplete`); restarting an empty list ignores it and can put a data
  segment into the temporary range (`StraysExactly`); with index segments asked for, the
  answer says nothing about the data segments (`AddSegment`, `AnswerHidesShortfall`).
* A blank statement before a semicolon crashes the console (`CallsAreGlobalPieces`,
  `RunPrompt`).
* `save_record` reports a lost insert as success (`AddUsesFreshNumber`); a failing read
  during the reset lowers the stored contact number (`SyncKeepsExactly`,
  `UnreadNumberComesBack`).
* `sc_atoll` drops the minus sign in front of trailing characters, tests for overflow
  on the nineteenth character only, and takes that character for a digit whatever it is
  (`ReadsMeaningExactly`, `ScAtoll`).
* The allocation ledger counts requests that failed, forgets strings copied before the
  first allocation, and has no test for a full table (`MallocDriftsExactly`,
  `EarlyCopyIsForgotten`, `LostExactly`).


## Model

| member | source | states |
|---|---|---|
| DbLock.StepKeepsInv | openML/src/server/common/sc_default_main.c:2629-2701 | Every step of any task, on either platform, keeps the invariant: the mutex has at most one task inside, the owner variable names exactly the task with open acquisitions, the shared depth is the owner's nesting, and a free lock with waiters has somebody who will look again |
| DbLock.MutualExclusion | openML/src/server/common/sc_default_main.c:2629-2701 | In every run at most one task holds the lock; SKIP is answered only to the current owner, SET only to a task that held nothing; the depth equals the owner's nesting; a paired unlock never fails |
| DbLock.ForeignUnlock | openML/src/server/common/sc_default_main.c:2751-2798 | An inner unlock by a task that holds nothing answers -1 exactly when another task holds the lock, and changes nothing else |
| DbLock.NoLostWakeUp | openML/src/server/common/sc_default_main.c:2633-2664 | With the lock free, nobody in the mutex and a task waiting, an awakened task is still to look: one signal per unlock strands nobody, spurious wake-ups and overtaking included |
| DbLock.StuckOnlyBehindAHolder | openML/src/server/common/sc_default_main.c:2755-2779 | When the lock's own code cannot move any more, whoever is still inside it waits behind an owner that is out in its section |
| DbLock.FreeLockIsTaken | openML/src/server/common/sc_default_main.c:2633-2664 | From every reachable state with the lock free and a waiter, every sequence of steps of tasks already inside the lock's code that does not hand the lock over is bounded, and where it cannot go on the lock was handed over: whatever the schedule, the lock is taken |
| DbLock.StepRefinesAtomicLock | openML/src/server/common/sc_default_main.c:2629-2798 | Each step of the condition-variable and of the polling branch is one step of one atomic re-entrant lock, or none |
| DbLock.RunsRefineAtomicLock | openML/src/server/common/sc_default_main.c:2629-2798 | The same over whole runs, from the initial state |
| DbLock.DirectUnlockByHolderBreaksExclusion | openML/src/server/common/sc_default_main.c:2751-2798 | The depth wrapper is needed: in every reachable state with a holder and a newcomer, one inner unlock by the holder leads to two tasks in the section |
| RecordCodec.EncodeContactIsLayout | openMSYNC/sample/android/JSyncDemo/src/com/SyncDemo/JSync2Server.java:117-157 | The text built field by field, with its last delimiter replaced, is the fields of the layout joined by the field delimiter and closed by the record delimiter |
| RecordCodec.PiecesOfJoin | openMSYNC/sample/android/JSyncDemo/src/com/SyncDemo/JSync2Server.java:31-36 | Splitting joined fields gives them back, empty ones included, when none contains the delimiter |
| RecordCodec.RoundTrip | openMSYNC/sample/android/JSyncDemo/src/com/SyncDemo/JSync2Server.java:51-81 | The two-level split with the dot sentinel gives back exactly the encoded rows if and only if there is a row and no field contains a delimiter |
| RecordCodec.ContactsRoundTrip | openMSYNC/sample/android/JSyncDemo/src/com/SyncDemo/JSync2Server.java:25-81 | The same for contacts: eight fields of an insert or update record, two of a delete record |
| UploadBatches.BatchesPartition | openMSYNC/sample/android/JSyncDemo/src/com/SyncDemo/JSync2Server.java:117-203 | Batching keeps every record whole, once and in order, and the joined batches are the joined records |
| UploadBatches.BatchSizes | openMSYNC/sample/android/JSyncDemo/src/com/SyncDemo/JSync2Server.java:159-203 | No batch exceeds the limit if and only if no record does; a batch is empty if and only if the first record is oversized |
| UploadBatches.FewestBatches | openMSYNC/sample/android/JSyncDemo/src/com/SyncDemo/JSync2Server.java:159-170 | No order-preserving packing within the limit needs fewer messages |
| ServerReading.ReadsExactly | openMSYNC/sample/android/JSyncDemo/src/com/SyncDemo/JSync2Server.java:117-157 | A text of pieces between field delimiters is taken by the server as a record of n fields exactly when there are n pieces, or one more which is empty |
| ServerReading.RowsAreReadExactly | openMSYNC/sample/android/JSyncDemo/src/com/SyncDemo/JSync2Server.java:117-157 | The server reads rows as they were written if and only if no field contains a delimiter |
| ServerReading.ToldExactly | openMSYNC/sample/android/JSyncDemo/src/com/SyncDemo/JSync2Server.java:83-203 | The server reads the pending list in the messages of a session if and only if no uploaded field contains a delimiter and no upload begins with an oversized record |
| ServerReading.ShiftedRecord | openMSYNC/sample/android/JSyncDemo/src/com/SyncDemo/JSync2Server.java:129-157 | A record with one field delimiter inside a field and an empty field at its end is taken with the fields in between shifted by one |
| ServerReading.ToldRowsAreClean | openMSYNC/sample/android/JSyncDemo/src/com/SyncDemo/JSync2Server.java:117-203 | Whatever the messages are read as, a row the server did not hold before holds no delimiter |
| ServerReading.GetParameters | openMSYNC/sample/android/JSyncDemo/src/com/SyncDemo/JSync2Server.java:117-157 | The server's loop over one record (in its SQLProcessing.cpp, lines 975-1055): the fields and the rest, or the refusal |
| ServerReading.ProcessStmt | openMSYNC/sample/android/JSyncDemo/src/com/SyncDemo/JSync2Server.java:159-203 | The server's loop over one message (lines 1275-1310 there): all its records in order, or the refusal |
| MsyncTable.UpsertLeavesMarkExactly | openMSYNC/sample/android/JSyncDemo/src/com/SyncDemo/JSync2Server.java:58-72 | A downloaded row is left marked for upload exactly when it was synchronised and changed, or marked and found equal; no other row is touched |
| SyncRuns.NoWriteLost | openMSYNC/sample/android/JSyncDemo/src/com/SyncDemo/JSync2Server.java:206-369 | In every run of edits and sessions cut short anywhere, a local write keeps its mark until that content was delivered in an acknowledged session behind the write; an earlier delivery of the same content does not count |
| SyncRuns.SinceIsTheWrite | openMSYNC/sample/android/JSyncDemo/src/com/SyncDemo/JSync2Server.java:228-262 | The point a write notes as its own is what had been delivered when it was made, until the key is edited again or downloaded |
| SyncRuns.DownloadsReplaceDeliveredWrites | openMSYNC/sample/android/JSyncDemo/src/com/SyncDemo/JSync2Server.java:51-81 | A download replaces a local write only after that write was delivered, again behind the write |
| SyncRuns.UploadsAgree | openMSYNC/sample/android/JSyncDemo/src/com/SyncDemo/JSync2Server.java:228-262 | While a key is in step, the messages of a readable upload leave it at the server as it is here |
| SyncRuns.UnreadableRowsDisagree | openMSYNC/sample/android/JSyncDemo/src/com/SyncDemo/JSync2Server.java:117-157 | A row with a delimiter in a field that the server does not hold never reaches it as it is here |
| SyncRuns.UnreadableRowIsFlushed | openMSYNC/sample/android/JSyncDemo/src/com/SyncDemo/JSync2Server.java:117-268 | For every contact with one field delimiter in the company and no address: the server keeps a shifted contact, and the flush leaves the local row unmarked |
| ServerRows.UploadsTell | openMSYNC/sample/android/JSyncDemo/src/com/SyncDemo/JSync2Server.java:228-262 | What the server holds of a key once it was told the pending list: the local row if one is marked, nothing if a deletion is, and what it held otherwise |
| SyncRuns.SessionAgreesExactly | openMSYNC/sample/android/JSyncDemo/src/com/SyncDemo/JSync2Server.java:265-353 | Whatever the server sent and whatever the client made of it, the two sides agree on a key behind a kept session with readable uploads if and only if the client's row is what the server's last word on it says |
| SyncRuns.MissedRecordsExactly | openMSYNC/sample/android/JSyncDemo/src/com/SyncDemo/JSync2Server.java:25-81 | With some of the sent records applied and others not, the two sides agree on a key if and only if the last record about it was applied or the row already was what it says |
| SyncRuns.HarmlessExactly | openMSYNC/sample/android/JSyncDemo/src/com/SyncDemo/JSync2Server.java:206-369 | The events that keep a key in step, exactly: no insert while its deletion is pending, no deletion of a row marked new that the server has, and sessions that leave the row as the server holds it or still waiting, and none beside a tombstone |
| SyncRuns.HarmlessRunsStayInStep | openMSYNC/sample/android/JSyncDemo/src/com/SyncDemo/JSync2Server.java:206-369 | A key stays in step all along a run if and only if each event is harmless to it when it happens |
| SyncRuns.UnansweredIsHarmless | openMSYNC/sample/android/JSyncDemo/src/com/SyncDemo/JSync2Server.java:255-262 | A readable upload whose acknowledgement was lost keeps every key in step, kept or not |
| SyncRuns.SessionsConverge | openMSYNC/sample/Java/com/openMSYNC/app/JDemoApp.java:252-396 | Behind a harmless run a kept session with readable uploads leaves a key the same on both sides if and only if the client's row is as the server said |
| SyncRuns.NoDeleteLost | openMSYNC/sample/android/JSyncDemo/src/com/SyncDemo/JSync2Server.java:246-262 | Behind a harmless run a record deleted locally is gone at the server or its deletion is still pending |
| SyncRuns.AcknowledgedButNotKept | openMSYNC/sample/android/JSyncDemo/src/com/SyncDemo/JSync2Server.java:255-268 | An acknowledgement before a commit that fails: the flush clears every mark, and the sides agree on a key only if they did before |
| SyncRuns.DeleteStrandsExactly | openMSYNC/sample/android/JSyncDemo/src/com/SyncDemo/JSyncDemoDeleteActivity.java:175-186 | A deletion leaves the record behind at the server exactly when the row was still marked new although the server has it |
| SyncRuns.StrandedStays | openMSYNC/sample/android/JSyncDemo/src/com/SyncDemo/JSync2Server.java:228-252 | A record left behind stays so until its key is inserted, downloaded or sent again |
| SyncRuns.UnflushedSessionStrandsADelete | openMSYNC/sample/Java/com/openMSYNC/app/JDemoApp.java:298-396 | Such a run exists for every readable contact, with the acknowledgement lost and with it received but no flush made: the contact is uploaded and then deleted |
| SyncRuns.FlushedSessionSettles | openMSYNC/sample/android/JSyncDemo/src/com/SyncDemo/JSync2Server.java:265-353 | Flushed early or late, a session leaves no row marked new and no live row with a tombstone |
| SyncRuns.DeletionsDecide | openMSYNC/sample/Java/com/openMSYNC/app/JDemoApp.java:252-396 | A careful run, its sessions flushed or cut short before, is harmless for a key if and only if the key is never deleted behind a session that left its row marked new although the server has it, before the next acknowledged one |
| SyncRuns.FlushedRunsAreHarmless | openMSYNC/sample/android/JSyncDemo/src/com/SyncDemo/JSync2Server.java:255-353 | With acknowledged sessions kept, right and flushed, that time is the one behind an upload as new whose acknowledgement was lost |
| SyncRuns.DeleteInDoubtStrands | openMSYNC/sample/android/JSyncDemo/src/com/SyncDemo/JSyncDemoDeleteActivity.java:175-186 | In such a run a deletion leaves the record behind at the server if and only if it falls into that time |
| SyncRuns.NewKeysMakeRunsHarmless | openMSYNC/sample/android/JSyncDemo/src/com/SyncDemo/JSyncDemoEditActivity.java:134-159 | Inserts under keys never used before take the place of the condition that no key is reused while its deletion is pending |
| BookRuns.SameActionsKeepContacts | openMSYNC/sample/android/JSyncDemo/src/com/SyncDemo/JSyncDemoEditActivity.java:134-176 | An action on the phone book and the statement it is for the table keep the book's contacts the numbers of the user's rows |
| BookRuns.BookKeysAreNew | openMSYNC/sample/android/JSyncDemo/src/com/SyncDemo/JSyncDemoEditActivity.java:134-159 | A number the phone book gives out makes a key that no row had before and no session touched |
| BookRuns.BookRunsAreHarmless | openMSYNC/sample/android/JSyncDemo/src/com/SyncDemo/JSyncDemoEditActivity.java:101-176 | So the runs of the phone book meet the hypothesis on new keys |
| DownloadStreams.GoodRecordsDecode | openMSYNC/sample/android/JSyncDemo/src/com/SyncDemo/JSync2Server.java:51-81 | Records whose columns were all applied decode to exactly the applied rows |
| DownloadStreams.MessagesAreRead | openMSYNC/sample/android/JSyncDemo/src/com/SyncDemo/JSync2Server.java:25-81 | The client reads each record of the server's messages as the fields it was written from |
| DownloadStreams.UnbrokenIsWhole | openMSYNC/sample/android/JSyncDemo/src/com/SyncDemo/JSync2Server.java:270-351 | Two unbroken streams are taken as exactly the messages the server wrote in each of them |
| DownloadStreams.SurvivesExactly | openMSYNC/sample/android/JSyncDemo/src/com/SyncDemo/JSync2Server.java:25-49 | A row survives a stream of deletions if and only if it was there and every record naming it failed; the others are untouched |
| DownloadStreams.GoesThroughExactly | openMSYNC/sample/android/JSyncDemo/src/com/SyncDemo/JSync2Server.java:25-49 | A stream of deletions goes through if and only if the failures of each message are outweighed: by malformed records, and with the Android client by deleted rows |
| DownloadStreams.NothingFailed | openMSYNC/sample/Java/com/openMSYNC/app/JDemoApp.java:74-98 | With the desktop client, whose statements answer 0 for any number of rows, nothing failed in a stream that went through without malformed records |
| SessionAgreement.SuccessAgreesExactly | openMSYNC/sample/android/JSyncDemo/src/com/SyncDemo/JSync2Server.java:25-49 | A session with readable uploads that went through leaves a key the same on both sides if and only if the server did not say it is deleted while each statement deleting it failed; and such failures were outweighed in their message |
| SessionAgreement.DesktopSuccessAgrees | openMSYNC/sample/Java/com/openMSYNC/app/JDemoApp.java:74-98 | With the desktop client such a session leaves every key the same |
| SessionAgreement.FailedDeleteStays | openMSYNC/sample/android/JSyncDemo/src/com/SyncDemo/JSync2Server.java:317-353 | A row whose deletion failed in a session that went through stays, and behind the last flush nothing marks it |
| SessionAgreement.FailedDeleteHappens | openMSYNC/sample/android/JSyncDemo/src/com/SyncDemo/JSync2Server.java:37-48 | With the Android client it happens for every table and every two of its rows: both are deleted at the server, the first deletion succeeds, the second fails, and the session goes through |
| SessionAgreement.MalformedHidesFailure | openMSYNC/sample/Java/com/openMSYNC/app/JDemoApp.java:86-96 | With either client a malformed record in the same message hides a failed deletion |
| SessionAgreement.MalformedNames | openMSYNC/sample/Java/com/openMSYNC/app/JDemoApp.java:81-96 | A message of a record of three fields and one of two is such a message |
| SessionAgreement.SilenceGoesThrough | openMSYNC/sample/android/JSyncDemo/src/com/SyncDemo/JSync2Server.java:274-351 | A server that falls silent behind its acknowledgement is taken for two empty streams: the session goes through and a key agrees only where the server had nothing new to say |
| SyncSession.SyncClient.SelectRecords | openMSYNC/sample/android/JSyncDemo/src/com/SyncDemo/JSync2Server.java:91-115 | The rows fetched for a flag are exactly those with the mark, each once |
| SyncSession.SyncClient.UploadRows | openMSYNC/sample/android/JSyncDemo/src/com/SyncDemo/JSync2Server.java:117-203 | The loop over the fetched rows: what was sent is a first part of the batches of all rows, all of them when it answers 0, and the messages hold the rows in order |
| SyncSession.SyncClient.UploadContact | openMSYNC/sample/android/JSyncDemo/src/com/SyncDemo/JSync2Server.java:83-204 | On success the messages sent are the batches of the selected records, each record in one of them; -1 sends nothing; every failure code leaves a first part sent |
| SyncSession.SyncClient.UpsertContact | openMSYNC/sample/android/JSyncDemo/src/com/SyncDemo/JSync2Server.java:58-72 | The marked upsert inserts, finds an equal row, or updates, with the mark changed as the engine does; what each client's statement answers |
| SyncSession.SyncClient.DeleteContact | openMSYNC/sample/Java/com/openMSYNC/app/JDemoLocalDB.java:443-483 | The delete statement: its fate, and what each client adds up for it |
| SyncSession.SyncClient.DownloadSelect | openMSYNC/sample/android/JSyncDemo/src/com/SyncDemo/JSync2Server.java:51-81 | Records are applied in order: 0 exactly when all were, and then they are what the batch decodes to; -2 exactly when the next one is malformed; -1 when its statement failed |
| SyncSession.SyncClient.DownloadDelete | openMSYNC/sample/android/JSyncDemo/src/com/SyncDemo/JSync2Server.java:25-49 | Every record has its fate; exactly the rows of the well-formed records that exist are deleted, in order, and the result is malformed less failed, and with the Android client plus deleted |
| SyncSession.SyncClient.ReceiveSelects | openMSYNC/sample/android/JSyncDemo/src/com/SyncDemo/JSync2Server.java:270-316 | The first download: every message taken in turn up to the end of the stream or the first that fails, each applied as above |
| SyncSession.SyncClient.ReceiveDeletes | openMSYNC/sample/android/JSyncDemo/src/com/SyncDemo/JSync2Server.java:317-351 | The second download, in the same way |
| SyncSession.SyncClient.Download | openMSYNC/sample/android/JSyncDemo/src/com/SyncDemo/JSync2Server.java:270-351 | 0 only when both streams were drained, upserts first, then deletes |
| SyncSession.SyncClient.UploadAll | openMSYNC/sample/android/JSyncDemo/src/com/SyncDemo/JSync2Server.java:228-252 | When all three uploads succeed, the messages sent are exactly the batches of the inserts, the updates and the deletes, and together they are the whole pending list |
| SyncSession.SyncClient.UploadPhase | openMSYNC/sample/android/JSyncDemo/src/com/SyncDemo/JSync2Server.java:206-262 | Without an acknowledgement nothing local changes, even when all was handed over; with one, the whole pending list counts as delivered |
| SyncSession.SyncClient.SyncTableFlushingEarly | openMSYNC/sample/android/JSyncDemo/src/com/SyncDemo/JSync2Server.java:206-369 | The Android session: its effect, wherever it stops, is a session event, flushed early when it was acknowledged and no flush failed; when it succeeds both streams were drained between the two flushes |
| SyncSession.SyncClient.SyncTableFlushingLate | openMSYNC/sample/Java/com/openMSYNC/app/JDemoApp.java:252-396 | The desktop session: the same with its own sum, with both streams drained and then flushed when it succeeds, and not flushed at all when it fails |
| SyncSession.SyncClient.DoSyncDb | openMSYNC/sample/android/JSyncDemo/src/com/SyncDemo/JSync2Server.java:372-453 | Every outcome of a synchronisation: the local table is touched only after an acknowledgement, 0 and -2 mean the table session went through, an upgrade demand touches nothing |
| SyncSession.SessionIsEvent | openMSYNC/sample/android/JSyncDemo/src/com/SyncDemo/JSync2Server.java:206-369 | A session of either client whose uploads were all handed over is one session event of the runs above, the server keeping what it reads in the messages sent; acknowledged or not, kept or not, whatever the server sent; any other leaves no trace |
| SyncSession.SuccessIsRightExactly | openMSYNC/sample/android/JSyncDemo/src/com/SyncDemo/JSync2Server.java:265-353 | What a successful session of either client with readable uploads leaves: each key the same on both sides except exactly the rows whose deletion failed, which stay and are not marked |
| SyncSession.DesktopSuccessIsRight | openMSYNC/sample/Java/com/openMSYNC/app/JDemoApp.java:298-396 | A successful session of the desktop client leaves every key the same on both sides |
| HandlePool.MLApi.GetConnection | openML/src/jni/mdb_MLapi.c:29-58 | Reserves the first free connection; fails exactly when none is free |
| HandlePool.MLApi.Connect | openML/src/jni/mdb_MLapi.c:60-85 | Only a reserved connection connects; clearing its slots discards nothing live |
| HandlePool.MLApi.CreateQuery | openML/src/jni/mdb_MLapi.c:175-250 | Succeeds exactly when connected, a slot is free and the library goes along; takes the first free slot with a fresh statement; a failed create leaves slots and library as they were |
| HandlePool.MLApi.FillSlot | openML/src/jni/mdb_MLapi.c:197-250 | What each failing library call leaves in the slot |
| HandlePool.MLApi.DestroyQuery | openML/src/jni/mdb_MLapi.c:252-292 | Frees the slot's statement and its result once, and nothing else; before the first use it answers an invalid connection id |
| HandlePool.MLApi.ClearRow | openML/src/jni/mdb_MLapi.c:444-469 | Lets go of the result, frees nothing |
| HandlePool.MLApi.Disconnect | openML/src/jni/mdb_MLapi.c:87-108 | Frees exactly the statements of the connection; a connection id out of range is used as an index, which the answer reports as undefined |
| HandlePool.MLApi.ReleaseConnection | openML/src/jni/mdb_MLapi.c:110-125 | The same, and the connection is free again; does nothing out of range or before first use |
| HandlePool.HandlesDistinct | openML/src/jni/mdb_MLapi.c:175-250 | Handles in use own different statements |
| HandlePool.ClosedMeansFreed | openML/src/jni/mdb_MLapi.c:87-125 | With no connection open, no statement or result is live |
| SegmentGrowth.ListsAgree | openML/src/server/API/mdb_dbi_space.c:181-193 | The tail walk is determined by the head: two lists from one head are the same |
| SegmentGrowth.NoPageTwice | openML/src/server/API/mdb_dbi_space.c:181-193 | A free list that ends has no page twice |
| SegmentGrowth.LinkedAppends | openML/src/server/API/mdb_dbi_space.c:215-224 | Writing a segment behind a tail appends exactly its pages in order, NULL-terminated and linked both ways |
| SegmentGrowth.DataPagesAt | openML/src/server/API/mdb_dbi_space.c:222-223 | Pages 2m and 2m+1 of a run of segments are the two pages of its segment m, in order |
| SegmentGrowth.DataRunComplete | openML/src/server/API/mdb_dbi_space.c:215-224 | A run of data segments is complete exactly when it stays below the temporary range, the size is not frozen, the total stays within the maximum and every resource is granted |
| SegmentGrowth.GainComplete | openML/src/server/API/mdb_dbi_space.c:128-254 | A call obtains exactly the number asked for, from an empty or a non-empty list, if and only if the conditions spelled out there hold |
| SegmentGrowth.StaysBelowLimits | openML/src/server/API/mdb_dbi_space.c:149-156 | An admitted call leaves the number of data segments below SEGMENT_NO and the configured maximum |
| SegmentGrowth.StraysExactly | openML/src/server/API/mdb_dbi_space.c:173-179 | A data segment ends up in the temporary range exactly when an empty list is restarted with the data range used up, no temporary segment taken, and room left |
| SegmentGrowth.AnswerHidesShortfall | openML/src/server/API/mdb_dbi_space.c:225-238 | With a frozen size and index segments asked for, no data segment is added and the answer does not show it |
| SegmentGrowth.AfterDataCounts | openML/src/server/API/mdb_dbi_space.c:215-224 | A run moves its own counter only, and keeps the numbering sound |
| SegmentGrowth.AfterIndexCounts | openML/src/server/API/mdb_dbi_space.c:225-238 | The same for index segments |
| SegmentGrowth.Space.WalkToTail | openML/src/server/API/mdb_dbi_space.c:181-193 | The walk ends, at the tail, and fails exactly when the list is empty or a page cannot be brought in |
| SegmentGrowth.Space.CheckFreeSegment | openML/src/server/API/mdb_dbi_space.c:173-179 | The first segment of an empty list, when its own limits allow |
| SegmentGrowth.Space.DataRoom | openML/src/server/API/mdb_dbi_space.c:219-220 | The limits on one more data segment, in order |
| SegmentGrowth.Space.AllocateSegment | openML/src/server/API/mdb_dbi_space.c:217-223 | One more data segment behind the tail, or nothing changes but the resource asked for |
| SegmentGrowth.Space.AllocateIndexSegment | openML/src/server/API/mdb_dbi_space.c:227-236 | One more index segment behind the index tail, numbered downwards |
| SegmentGrowth.Space.GrowData | openML/src/server/API/mdb_dbi_space.c:215-224 | The loop: the free list becomes the old one followed by the pages of the new segments in number order |
| SegmentGrowth.Space.GrowIndex | openML/src/server/API/mdb_dbi_space.c:225-238 | The same for index segments |
| SegmentGrowth.Space.Grow | openML/src/server/API/mdb_dbi_space.c:170-238 | Both lists afterwards, and the answer, for every state, request and failure |
| SegmentGrowth.Space.AddSegment | openML/src/server/API/mdb_dbi_space.c:128-254 | Limits are checked before anything is touched; a transaction is begun and ended here exactly when none was open, committed unless the answer is an error; how many segments of each kind were added and what is answered for them |
| StatementSplitter.QuotesJoin | openML/src/jni/com/openml/app/Jsql.java:262-282 | Tracking quotes line by line is tracking them over the joined text |
| StatementSplitter.ScanIsPartition | openML/src/jni/com/openml/app/Jsql.java:456-490 | The global scan loses and reorders nothing |
| StatementSplitter.FirstEndMeans | openML/src/jni/com/openml/app/Jsql.java:456-477 | The position found is a semicolon outside quotes and no earlier one is |
| StatementSplitter.RestartAgrees | openML/src/jni/com/openml/app/Jsql.java:456-490 | Cutting at the first end and starting afresh agrees with scanning on |
| StatementSplitter.CompleteLeavesBlank | openML/src/jni/com/openml/app/Jsql.java:420-442 | Behind the last statement of a complete text there is only white space |
| StatementSplitter.CallsAreGlobalPieces | openML/src/jni/com/openml/app/Jsql.java:348-502 | Successive calls hand out the left-trimmed pieces of one global scan in order; they crash if and only if a piece is blank |
| StatementSplitter.LeftTrimMeans | openML/src/jni/com/openml/app/Jsql.java:468-482 | A statement handed out is its piece from the first character that is not white space |
| StatementSplitter.GatherMeans | openML/src/jni/com/openml/app/Jsql.java:366-443 | A text read is the lines from the first non-blank one to the first line at which it is complete |
| StatementSplitter.QueryStr.ReadText | openML/src/jni/com/openml/app/Jsql.java:366-454 | The reading loop with its commands, the length limit and the end of input |
| StatementSplitter.QueryStr.HandOut | openML/src/jni/com/openml/app/Jsql.java:456-501 | One statement handed out and the rest kept, or the crash on a blank piece |
| StatementSplitter.QueryStr.ReadQueryStr | openML/src/jni/com/openml/app/Jsql.java:348-502 | One call, for every input and every remainder |
| StatementSplitter.QueryStr.RunPrompt | openML/src/jni/com/openml/app/Jsql.java:598-650 | The console's loop over one text executes exactly the pieces of the global scan, in order, if and only if none is blank |
| ContactIds.SyncKeepsExactly | openMSYNC/sample/android/JSyncDemo/src/com/SyncDemo/JSync2Local.java:179-249 | A synchronisation keeps all numbers covered and the stored one from falling exactly under the stated condition on what was downloaded and which reads failed |
| ContactIds.AddUsesFreshNumber | openMSYNC/sample/android/JSyncDemo/src/com/SyncDemo/JSyncDemoEditActivity.java:134-159 | A new contact's number was never used; it is stored exactly when both statements succeed, reported and counted exactly when the second one does; a failing second one undoes the first |
| ContactIds.RunStaysCovered | openMSYNC/sample/android/JSyncDemo/src/com/SyncDemo/JSyncDemoActivity.java:501-543 | Over every run all numbers stay at most the stored one, the next number is one above it, and it never falls |
| ContactIds.NumbersAreNeverReused | openMSYNC/sample/android/JSyncDemo/src/com/SyncDemo/JSyncDemoEditActivity.java:101-176 | No number is used twice in a run, removed contacts included |
| ContactIds.UnreadNumberComesBack | openMSYNC/sample/android/JSyncDemo/src/com/SyncDemo/JSync2Local.java:229-249 | When the stored number cannot be read before the comparison, a removed contact's number comes back |
| ContactIds.PhoneBook.Query2LocalDB | openMSYNC/sample/android/JSyncDemo/src/com/SyncDemo/JSync2Local.java:312-366 | One statement with its commit or rollback |
| ContactIds.PhoneBook.GetSubMaxID | openMSYNC/sample/android/JSyncDemo/src/com/SyncDemo/JSync2Local.java:179-226 | The highest contact number, 0 when there is none, or the code of the failure |
| ContactIds.PhoneBook.GetNextID | openMSYNC/sample/android/JSyncDemo/src/com/SyncDemo/JSync2Local.java:251-310 | One above the stored number, or the code of the failure |
| ContactIds.PhoneBook.ResetMaxID | openMSYNC/sample/android/JSyncDemo/src/com/SyncDemo/JSync2Local.java:229-249 | The stored number is raised when the contacts have overtaken it, skipping one |
| ContactIds.PhoneBook.SaveRecord | openMSYNC/sample/android/JSyncDemo/src/com/SyncDemo/JSyncDemoEditActivity.java:134-176 | The answer is that of the last statement; what is committed for every combination of failures |
| ContactIds.PhoneBook.OkClicked | openMSYNC/sample/android/JSyncDemo/src/com/SyncDemo/JSyncDemoEditActivity.java:101-125 | Saving is one add or edit step of the phone book |
| ContactIds.PhoneBook.DeleteRecord | openMSYNC/sample/android/JSyncDemo/src/com/SyncDemo/JSyncDemoDeleteActivity.java:175-186 | Removing is one remove step of the phone book |
| ContactIds.PhoneBook.DoSync | openMSYNC/sample/android/JSyncDemo/src/com/SyncDemo/JSyncDemoActivity.java:501-543 | A synchronisation is one sync step of the phone book |
| Atoll.ScAtoll | openML/src/server/common/sc_default_main.c:1577-1628 | The value read, wrap-around included; an intermediate result left the 64-bit range exactly when the digits exceed the maximum and the one saturation test did not fire |
| Atoll.DecimalRoundTrip | openML/src/jni/mdb_MLapi.c:353-356 | Every 64-bit integer printed and read back is itself; an intermediate result leaves the range for the smallest integer only; saturation never fires |
| Atoll.DecimalIsInjective | openMSYNC/sample/android/JSyncDemo/src/com/SyncDemo/JSync2Local.java:251-310 | Different numbers make different keys |
| Atoll.ReadsMeaningExactly | openML/src/server/common/sc_default_main.c:1604-1627 | On digits within range the result is what the text says if and only if the sign is not lost to trailing characters and the test did not mistake a character behind 18 digits |
| Atoll.SaturationIsSound | openML/src/server/common/sc_default_main.c:1606-1618 | Behind at least 19 digits saturation gives the right bound |
| HeapLedger.StepKeepsTidy | openML/src/server/common/sc_default_main.c:3020-3105 | Every clean call leaves the entries in use exactly the live blocks, the total their sum, the highest total taken in, never used entries last |
| HeapLedger.RunConserves | openML/src/server/common/sc_default_main.c:3020-3105 | Over every clean run from the start: the total is the sum of the live sizes and the maximum is exactly the largest total reached |
| HeapLedger.LostExactly | openML/src/server/common/sc_default_main.c:3033-3104 | Writing behind the table, and stopping on an unknown address, each exactly when the stated condition holds; releasing NULL is harmless exactly while a never used entry remains |
| HeapLedger.MallocDriftsExactly | openML/src/server/common/sc_default_main.c:3022-3058 | The total drifts exactly on a failed non-empty request or a size that does not fit an int |
| HeapLedger.EarlyCopyIsForgotten | openML/src/server/common/sc_default_main.c:1525-1552 | A string copied before the first allocation is forgotten by it, and releasing it stops the program |
| HeapLedger.HeapLedger.Allocate | openML/src/server/common/sc_default_main.c:3018-3059 | sc_malloc on the table |
| HeapLedger.HeapLedger.Duplicate | openML/src/server/common/sc_default_main.c:1523-1552 | sc_strdup on the table |
| HeapLedger.HeapLedger.Release | openML/src/server/common/sc_default_main.c:3081-3106 | sc_free on the table |
| HeapLedger.HeapLedger.UpLevelMallocFree | openML/src/server/common/sc_default_main.c:116-120 | sc_uplevel_mallocfree on the table |
| HeapLedger.HeapLedger.Print | openML/src/server/common/sc_default_main.c:123-145 | Stopping at the first never used entry misses no entry in use |
| ErrorRing.PushKeepsLastFive | openML/src/server/common/sc_default_main.c:3623-3635 | Writing message n into slot n%5 keeps the last five messages in their slots |
| ErrorRing.ReplaceKeepsOwned | openML/src/server/common/sc_default_main.c:3604-3634 | Replacing the buffer of a slot keeps every buffer in one slot and none lost |
| ErrorRing.ErrMsgQueue.Prepare | openML/src/server/common/sc_default_main.c:3602-3619 | A buffer is reused exactly when the recorded size exceeds the length, and always fits |
| ErrorRing.ErrMsgQueue.Add | openML/src/server/common/sc_default_main.c:3590-3639 | The message becomes the newest of the last five, or its slot is empty when there was no room; all other slots keep theirs, the recorded size never exceeds the real one |
| WideStrings.CompareZero | openML/src/server/common/sc_default_main.c:1901-1919 | The order answers 0 only for equal texts |
| WideStrings.CompareAntisymmetric | openML/src/server/common/sc_default_main.c:1901-1919 | It is antisymmetric |
| WideStrings.CompareTransitive | openML/src/server/common/sc_default_main.c:1901-1919 | It is transitive |
| WideStrings.WcsCmp | openML/src/server/common/sc_default_main.c:1901-1919 | sc_wcscmp is that order, without reading past a terminator |
| WideStrings.WcsCaseCmp | openML/src/server/common/sc_default_main.c:1930-1965 | sc_wcscasecmp is the same order on the lower-cased texts |
| WideStrings.CaseOrder | openML/src/server/common/sc_default_main.c:1930-1965 | That is a total preorder whose equality is equality up to case |
| WideStrings.WcsStr | openML/src/server/common/sc_default_main.c:2305-2337 | The first occurrence, none exactly when there is none, without reading past a terminator |
| WideStrings.StrCaseStr | openML/src/server/common/sc_default_main.c:3231-3257 | The same up to ASCII case |
| NullBitmap.ApplyChangesOneFlag | openML/src/include/db_api.h:37-42 | One operation changes one flag and no other bit of the record |
| NullBitmap.BitmapIsSet | openML/src/include/db_api.h:37-42 | After any run of operations the flags are the set of fields the run leaves |
| NullBitmap.LastOperationDecides | openML/src/include/db_api.h:37-42 | The last operation on a field decides its flag |
| NullBitmap.UnnamedKeepsBit | openML/src/include/db_api.h:37-42 | A field that no operation names keeps its bit |
| NullBitmap.BodyUntouched | openML/src/include/db_api.h:37-42 | The record body and everything behind the bitmap stay as they were |
| NullBitmap.DbValueIsNull | openML/src/include/db_api.h:37-38 | The macro reads the flag |
| NullBitmap.DbValueSetNull | openML/src/include/db_api.h:39-40 | The macro in place is the operation on the buffer's value |
| NullBitmap.DbValueSetNotNull | openML/src/include/db_api.h:41-42 | The macro in place is the operation on the buffer's value |

## Left out

* The T-tree, the log and recovery, the container and index catalogs, the SQL planner
  and parser, the mSync server: not part of this model.
* `sc_db_clearlock` and the owner transfer functions: they change the owner without the
  mutex, outside the discipline under which the lock is proved.
* SQL text and its quoting, the KSC5601 and Java encodings (taken as the identity), and
  the order in which a selection lists its rows.
* The mtime column, except for the outcome of an upsert that finds an equal row; two
  dead tests of a result that cannot be negative.
* The server's side of a session beyond the rows it was told or has told: it keeps all
  of a session's uploads or none, since it commits only at the acknowledgement. When it
  leaves out on its own to send what was missed before is not part of this model.
* Console and Android screens, preferences, date, time and floating-point formatting.
* `ML_executequery`, `ML_bindparam` and the row accessors, except for the BIGINT text.
* Swapping of segments out of memory: a segment in use counts as present.
* The wrap-around of `numsegment + allocated_segment_no_` in 32 bits, and of the heap
  totals in an unsigned long.
- ServerReading.GetParameters: the widths of the server's columns; a field too long for its column is refused like a malformed record, which the runs cover as not kept. Drivers for which the server writes the values into the statement text are left out.
- ServerReading.ProcessStmt: executing the statements; one that fails ends the session, which the runs cover as not kept.
- SyncSession.SyncClient.DeleteContact: a statement that fails leaves the table as it was, though the desktop client does not roll back, because the engine undoes it by itself (`openML/src/server/sql/sql_main.c`, lines 1401-1510); and destroying the statement just created does not fail, by `HandlePool.MLApi.DestroyQuery`.
- BookRuns.SameActionsKeepContacts: removing all contacts at once is many deletions of the runs and not one action.
- BookRuns.BookKeysAreNew: that a session touches no number that it does not leave and that no contact has had is a condition of `Follows`.
- SegmentGrowth.Space.AddSegment: an abort ends the transaction but takes back no segment in the model, since undoing a segment allocation belongs to recovery.
- SegmentGrowth.Space.AllocateSegment: failures of memory, disk, log and file write are one refused resource with one error code.
- StatementSplitter.QueryStr.ReadText: lower-casing of commands is ASCII only, and printed help and timings are left out.
- StatementSplitter.QueryStr.RunPrompt: executing the statements is left out.
- ContactIds.PhoneBook.DoSync: one user whose row in the number table exists; changing the user and recreating the database are left out.
- ContactIds.NumbersAreNeverReused: a number downloaded and deleted again within one session is not seen.
- Atoll.ScAtoll: ASCII texts; a byte above 127 behind the eighteenth digit depends on the signedness of char.
- HeapLedger.HeapLedger.Allocate: writing behind a full table is an outcome, not what it overwrites.
- ErrorRing.ErrMsgQueue.Add: the task number is given by the caller.
