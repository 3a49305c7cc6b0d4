# A verified model of the clipboard, automation and launcher kernels

This project models the stateful and algorithmic kernels of the desktop hub in Dafny and proves what
their code and documentation promise.

- **The clipboard store** (`ClipModel`, `ClipStore`, `ClipInvariant`, `ClipReading`, `CaptureLog`,
  `PurgeExact`, `GroupCounts`, `Suggestions`, `FileLists`, `Utf8`, `Retention`): a row table, a paste stack
  with integer positions and a content-addressed blob directory, changed in place by a class whose
  methods are proved equal to operations on values; the theorems are about every run of those operations.
- **The paste stack** (`PasteStack`, `StackRefinement`, `StackRaces`): the position table as a duplicate-free
  FIFO sequence, and what happens between the locks of `stack_move` and of a delivery.
- **Delivery and backup** (`Delivery`, `Backup`, `BackupRoundTrip`, `BackupFile`): pasting the stack for any
  outcome of the ports, and export, clear, import as a round trip.
- **The capture pipeline** (`Pipeline`, `LiteralRegex`): the gates in order, content blocking by literal
  patterns, and that a detected secret never reaches table or disk in the clear.
- **The automation engine** (`Conditions`, `Rules`, `RuleEngine`, `DeadQueue`, `DeadLetters`, `Cooldown`,
  `History`, `DryRun`, `Scheduler`): conditions, retries, the dead-letter queue under concurrency, the cooldown
  gate, the history ring, the planner against the run, and scheduler generations.
- **Algorithms** (`FuzzyMatch`, `SearchSyntax`, `CheckDigits`, `Reminder`): greedy matching, the search syntax,
  the two check digits, calendar arithmetic.

`dafny verify dfyconfig.toml` checks everything.

## What the proofs assume

- Hashing is injective (a digest determines its bytes); a new ciphertext repeats no stored content and no
  other new ciphertext; a protected plaintext opens to itself. Where a freshness assumption matters it is a
  named predicate (`FreshRun`, `SealsFresh`), and `ClipInvariant.CapturedKeepsIff` shows it is needed.
- Row ids, stack row ids and letter ids come from counters. `insert_row` is called for plain text only
  (`crates/clipboard-core/src/pipeline.rs:375`), so its `secret` flag is not modelled.
- Every store method is one atomic step, except `stack_move`, which is two. Removing a file always works;
  an insert that fails after writing its file is the step that leaves a stray file. A delivery run
  (`Delivery.ClipboardModule`) is alone with the stack; the source peeks, reads and takes under three locks and
  sleeps between deliveries, and `StackRaces` says what others may do meanwhile.
- Rows of the same moment are ordered by row. An import uses one time for all its rows.
- Floats are reals. Case folding and character classes are those of an arbitrary table.
- Starting and stopping the automation module is atomic.

## Where the code and its documentation, or a natural reading, differ

- `stack_move` reads and writes under two locks. Pushes in between are harmless (`PasteStack.MoveWithPushes`),
  but a take and a new push in between can leave two entries with one position
  (`PasteStack.InterleavedMoveCanCollide`); `PasteStack.WriteKeepsDistinctIff` is the exact condition on the
  table at the write, and `StackRaces.MoveSafeWhileLastStays` one on what is served in between.
- A delivery writes the head and then takes whatever is the head: when the written entry was removed or moved
  meanwhile, an undelivered one is dropped (`StackRaces.RemovalMeanwhileLosesAnEntry`);
  `StackRaces.TakeDropsOnlyTheWrittenIff` and `StackRaces.HeadKeptIff` are the exact conditions.
- The dead-letter queue is cut when a firing fails, not when a replay puts a letter back, so it can hold any
  number of letters past 100 when nothing is in flight any more (`DeadLetters.CapExceededByAny`). The true bound
  is `DeadLetters.QueueBound`, and `DeadLetters.CapSafeIff` says exactly when the cap is safe.
- `replay` has no guard against a second replay of the same letter: each puts a letter of its own back, without
  any firing (`DeadLetters.SameLetterReplays`), so that only an idle, empty queue is safe then
  (`DeadLetters.DoublesSafeIff`).
- Only one tick a day fires scheduled rules: a rule set for later on the same day is skipped
  (`Scheduler.FiresIffFirstDueOfDate`, `Scheduler.LaterRuleIsSkipped`).
- The group counts overwrite a bucket whose name a user group also has; the comment says they merge
  (`GroupCounts.TextBucketIff`, `GroupCounts.TextBucketCanDisagree`, and the same for secret).
- Image and file captures do not count towards the periodic purge and pile up past any limit
  (`Pipeline.UncountedPileUp`): the limit is kept exactly when both switches are off (`Pipeline.StaysNearIff`), and
  `Pipeline.RowsStayBounded` is the bound that holds otherwise.
- A missing path is documented as null but behaves unlike null in tests against null
  (`Conditions.MissingIsNullIff`); integers and floats are equal as compared values but not inside arrays and
  objects (`Conditions.NestedNumbersAreStrict`, `Conditions.EqualityIsLenientIff`).
- Contiguity is documented as the longest contiguous segment (`crates/desktop-core/src/score.rs:16-17`), but the
  scan takes the first occurrence of each character: a name may contain the whole query and still score less
  (`FuzzyMatch.GreedyMayMissTheBlock`). `FuzzyMatch.ContiguityOneIff` says when it scores 1.
- A half-day prefix before `HH:MM` has no effect (`Reminder.ColonIgnoresHalfDay`,
  `Reminder.AfternoonColonIsNight`); "yesterday" gives a moment in the past (`Reminder.FutureIffNotYesterday`,
  `Reminder.YesterdayIsPast`); weekdays are counted from the UTC day (`Reminder.WeekdayIsLocalIff`,
  `Reminder.WeekdayCanBeOffByOne`); the comment on `parse_day` lists a day word the code does not know
  (`Reminder.ThreeDaysAgoIsToday`); twelve o'clock before dawn and at night is noon (`Reminder.TwelveIsNoon`).
- A cooldown of more than 9223372036854775 seconds is not the configured gate: the cast of the
  milliseconds to `i64` wraps (`Cooldown.KeepsApartIff`, `Cooldown.WrappedGates`). From 18446744073709552 seconds on
  the multiplication itself overflows; the model wraps as a release build does, a debug build panics there.
- `id_checksum_valid` counts every character that is no ASCII digit as 0, and the detection rule's digit class
  holds the digits of every script: a 0 may become such a digit (`CheckDigits.ForeignDigitPasses`). It also
  accepts one kind of exchange with the check character X (`CheckDigits.IdLastSwap`), which the rule excludes.

## Model

| member | source | states |
|---|---|---|
| `ClipInvariant.RunKeeps` | crates/clipboard-core/src/store.rs:278-410 | over every run of captures, curation, deletions, purges, collections, stray files and stack operations: rows have distinct ids and contents, each row's full bytes are in its column or in its blob file, and every stacked id is a live row |
| `ClipInvariant.StepKeeps` | crates/clipboard-core/src/store.rs:564-616 | each single operation keeps that invariant, provided a new ciphertext repeats no stored content |
| `ClipInvariant.CapturedKeepsIff` | crates/clipboard-core/src/store.rs:355-410 | a capture keeps the invariant if and only if it is not a ciphertext equal to something stored |
| `ClipInvariant.BlobsAreNotShared` | crates/clipboard-core/src/store.rs:325-331 | two rows with the same blob file are the same row |
| `ClipInvariant.AnswerNamesTheCapture` | crates/clipboard-core/src/store.rs:299-352 | the id a capture answers with is that of a row with the captured content, refreshed or new, in every store |
| `ClipInvariant.AnswerIsExact` | crates/clipboard-core/src/store.rs:299-352 | and of no other row, in every state that keeps the invariant |
| `ClipReading.ReadBack` | crates/clipboard-core/src/store.rs:863-916 | in every state that keeps the invariant, the payload of each row is its full bytes, whether inline or in a blob |
| `ClipReading.CaptureReadsBack` | crates/clipboard-core/src/store.rs:863-916 | a newly created row gives back exactly what was captured, after any later run in which it survives |
| `ClipReading.TextShown` | crates/clipboard-core/src/store.rs:325-340 | a text of up to 64 KiB is shown whole and has no file, a longer one is shown by its first 512 characters |
| `ClipReading.CipherShown` | crates/clipboard-core/src/store.rs:367-400 | a ciphertext of up to 64 KiB is in the row, of a longer one the row shows nothing |
| `ClipReading.LastDotSplits` | crates/clipboard-core/src/store.rs:883 | an image is read back with what follows the last dot of its file's suffix as format |
| `ClipReading.SizeReadsBack` | crates/clipboard-core/src/store.rs:756-797 | the size column of an image tells its width and height |
| `ClipReading.PayloadNeverChanges` | crates/clipboard-core/src/store.rs:278-322 | for as long as a row lives its payload is the same, whatever else happens |
| `ClipReading.SurvivorsKeepPayload` | crates/clipboard-core/src/store.rs:564-616 | removing rows never takes a surviving row's file or changes what it reads |
| `ClipReading.CollectionIsExact` | crates/clipboard-core/src/store.rs:1324-1358 | after the orphan collection the files are exactly the referenced ones, with their bytes |
| `Utf8.DecodeEncode` | crates/clipboard-core/src/store.rs:899-903 | text written to a blob and read back is the same text |
| `Utf8.EncodedShape` | crates/clipboard-core/src/store.rs:320-331 | lengths, lead bytes and continuation bytes are those of RFC 3629, section 3 |
| `FileLists.PathsReadBackIff` | crates/clipboard-core/src/store.rs:799-811 | a list of paths survives the joined column if and only if no path holds a line feed, none but the last ends in a carriage return, and the last is not empty |
| `FileLists.PathsReadBack` | crates/clipboard-core/src/store.rs:885-891 | a new file row gives its listable paths back after any later run in which it survives |
| `ClipStore.ClipStore.InsertRow` | crates/clipboard-core/src/store.rs:284-352 | a text either refreshes the row of its content or makes a new row, with a blob file past the threshold; the answered id is that row's |
| `ClipStore.ClipStore.InsertEncrypted` | crates/clipboard-core/src/store.rs:367-410 | a ciphertext always makes a new secret row; the invariant survives exactly when the ciphertext is new |
| `ClipStore.ClipStore.InsertImage` | crates/clipboard-core/src/store.rs:756-796 | an image refreshes the row of its bytes or makes a new row whose bytes are in a file |
| `ClipStore.ClipStore.InsertTyped` | crates/clipboard-core/src/store.rs:824-860 | a file list refreshes the row of its content, of whatever kind, or makes a new row |
| `ClipStore.ClipStore.SetPinned` | crates/clipboard-core/src/store.rs:550-562 | sets the pin of the row with that id and nothing else |
| `ClipInvariant.PinExact` | crates/clipboard-core/src/store.rs:550-562 | exactly the row with that id changes, and only its pin |
| `ClipStore.ClipStore.Delete` | crates/clipboard-core/src/store.rs:564-583 | the row, its stack entry and its file go; nothing else changes |
| `ClipStore.ClipStore.Clear` | crates/clipboard-core/src/store.rs:585-616 | all rows, or all but the pinned, go with their stack entries and files; the answer is how many |
| `ClipStore.ClipStore.Purge` | crates/clipboard-core/src/store.rs:1267-1320 | expired rows, then the overflow, go with their stack entries and files; the answer is how many rows went |
| `ClipStore.ClipStore.GcOrphanBlobs` | crates/clipboard-core/src/store.rs:1324-1358 | the files left are the referenced ones; the answer is how many were removed |
| `ClipStore.ClipStore.SetEntryGroup` | crates/clipboard-core/src/store.rs:977-994 | a bad name or a missing row is an error that changes nothing; otherwise that row alone gets the trimmed name |
| `ClipInvariant.GroupExact` | crates/clipboard-core/src/store.rs:977-995 | exactly the row with that id changes, and only its group |
| `ClipInvariant.CleanNames` | crates/clipboard-core/src/store.rs:1456-1473 | a name is accepted exactly when it is not blank and trims to at most 64 characters, and cleaning twice is cleaning once |
| `ClipStore.ClipStore.RenameGroup` | crates/clipboard-core/src/store.rs:997-1008 | the whole group moves, and the answer is how many rows it had |
| `ClipStore.ClipStore.ApplySuggestion` | crates/clipboard-core/src/store.rs:1052-1072 | the batch decides each listed row in turn and answers how many updates matched |
| `ClipInvariant.DecideExact` | crates/clipboard-core/src/store.rs:1052-1073 | exactly the row with that id changes: dismissed, or filed under its suggestion unless it was in a group |
| `Suggestions.AcceptCountsChanges` | crates/clipboard-core/src/store.rs:1052-1073 | an accepted batch answers the number of rows it changed |
| `Suggestions.DismissCountsRows` | crates/clipboard-core/src/store.rs:1052-1073 | a dismissed batch answers how many of its ids have a row |
| `Suggestions.AcceptTwice` | crates/clipboard-core/src/store.rs:1050-1072 | accepting the same batch again changes no row and reports no change |
| `ClipStore.ClipStore.StackPush` | crates/clipboard-core/src/store.rs:620-647 | appends a live entry once, answers the depth, refuses an unknown id |
| `ClipStore.ClipStore.StackTakeNext` | crates/clipboard-core/src/store.rs:669-685 | answers the head and removes exactly its row |
| `ClipStore.ClipStore.StackMoveRead` | crates/clipboard-core/src/store.rs:688-696 | the first lock: the order read, with the entry at the clamped index |
| `ClipStore.ClipStore.StackMoveWrite` | crates/clipboard-core/src/store.rs:697-709 | the second lock: every entry still there gets its list index as position, whatever the stack has become |
| `ClipStore.ClipStore.StackRemove` | crates/clipboard-core/src/store.rs:713-719 | removes the entry from the stack, keeps its row, and answers whether it was there |
| `ClipStore.ClipStore.ImportRows` | crates/clipboard-core/src/store.rs:1181-1248 | succeeds with the report and state of the import, or fails with the tables as they were and only stray files added |
| `StackRefinement.RunRefines` | crates/clipboard-core/src/store.rs:620-727 | over every run in which each move writes a list read from what is still the front of the queue, with any pushes in between, the position table stands for the FIFO sequence driven by the obvious steps, with distinct positions |
| `StackRefinement.StepRefines` | crates/clipboard-core/src/store.rs:68-73 | each operation acts on the table as its step acts on the sequence; removed rows take exactly their own entries |
| `StackRefinement.FifoIsLiveAndDistinct` | crates/clipboard-core/src/store.rs:68-73 | the sequence has no duplicates and holds live rows only |
| `StackRefinement.PurgeRefines` | crates/clipboard-core/src/store.rs:1267-1320 | after a purge the stack has lost exactly the removed entries |
| `PasteStack.PushAppends` | crates/clipboard-core/src/store.rs:635-641 | a push appends, or does nothing when the entry is stacked already |
| `PasteStack.TakeIsHead` | crates/clipboard-core/src/store.rs:669-685 | a take leaves the tail of the sequence |
| `PasteStack.RemovalFilters` | crates/clipboard-core/src/store.rs:713-727 | removals filter the sequence, even where positions have collided |
| `PasteStack.MoveIsRemoveThenInsert` | crates/clipboard-core/src/store.rs:688-710 | an uninterrupted move is remove-then-insert at the clamped index and keeps positions distinct |
| `PasteStack.MovedIsPermutation` | crates/clipboard-core/src/store.rs:690-696 | the moved order is a permutation with the entry at the clamped index and the others in order |
| `PasteStack.MoveWithPushes` | crates/clipboard-core/src/store.rs:688-710 | pushes between the read and the write stay behind all moved entries, in their order, and positions stay distinct |
| `PasteStack.WriteKeepsDistinctIff` | crates/clipboard-core/src/store.rs:697-709 | in general the write keeps positions distinct if and only if no row outside the list sits at an index given to an entry still in the table |
| `PasteStack.InterleavedMoveCanCollide` | crates/clipboard-core/src/store.rs:688-710 | an input for which two entries end with the same position: take everything and push again between read and write |
| `StackRaces.MoveMeanwhile` | crates/clipboard-core/src/store.rs:688-710 | a move during which others push, capture and curate moves its entry within the entries it read; what was pushed stays behind in order |
| `StackRaces.MoveSafeWhileLastStays` | crates/clipboard-core/src/store.rs:688-710 | whatever pushes, takes, removals and deletions come between the two locks, positions stay distinct as long as the last entry that was read stays on the stack |
| `StackRaces.TakeDropsOnlyTheWrittenIff` | crates/clipboard-core/src/module.rs:607-637 | the take that ends a delivery drops no undelivered entry if and only if the written entry is still the head |
| `StackRaces.HeadKeptIff` | crates/clipboard-core/src/module.rs:607-637 | operation by operation, exactly when the head stays where it is |
| `StackRaces.DeliveryTakesWhatItWrote` | crates/clipboard-core/src/module.rs:607-637 | while others keep the head, a delivery takes exactly the entry it wrote |
| `StackRaces.RemovalMeanwhileLosesAnEntry` | crates/clipboard-core/src/module.rs:607-637 | an input for which an undelivered entry is dropped: the head is removed by hand during its delivery |
| `PurgeExact.PurgeSurvivors` | crates/clipboard-core/src/store.rs:1267-1320 | every pinned row survives, and of the unpinned rows inside the retention period as many as the limit allows; nothing else |
| `PurgeExact.PurgeKeepsNewest` | crates/clipboard-core/src/store.rs:1293-1310 | each candidate kept is at least as new as each candidate removed |
| `PurgeExact.PurgeRemovesTheirFiles` | crates/clipboard-core/src/store.rs:1313-1317 | the files removed are exactly those of the removed rows |
| `PurgeExact.ClearLeavesThePinned` | crates/clipboard-core/src/store.rs:585-616 | a clear leaves exactly the pinned rows when they are kept, and no row otherwise, with their files |
| `CaptureLog.TableTellsLog` | crates/clipboard-core/src/store.rs:278-352 | over every run each row is told by the captures of its content since its creation: usage counts the repeats, origin is local exactly when one was, html is the first there was, the time is the last capture's |
| `CaptureLog.RowIffLogged` | crates/clipboard-core/src/store.rs:289-298 | a content has a row exactly when its log since creation is not empty |
| `CaptureLog.RepeatKeepsCuration` | crates/clipboard-core/src/store.rs:299-311 | a repeat changes no row's pin, group, suggestion or dismissal, adds no row, and leaves the stack alone |
| `GroupCounts.GroupCounts` | crates/clipboard-core/src/store.rs:919-971 | the counts shown are the counting statements' results, later statements overwriting equal keys |
| `GroupCounts.BucketIsFilter` | crates/clipboard-core/src/store.rs:1433-1452 | for every name but all, text and secret the bucket is the number of rows the filter selects; files included |
| `GroupCounts.TextBucketIff` | crates/clipboard-core/src/store.rs:919-971 | text agrees with its filter if and only if no row is in a user group of that name or that group is of the same size |
| `GroupCounts.SecretBucketIff` | crates/clipboard-core/src/store.rs:934-960 | secret agrees with its filter if and only if as many secrets are filed under another name as other rows under that one |
| `GroupCounts.AllBucket` | crates/clipboard-core/src/store.rs:919-971 | all is the number of rows, less the images in no group, plus the file lists that have a key |
| `GroupCounts.RenameMovesTheGroup` | crates/clipboard-core/src/store.rs:997-1020 | renaming or deleting a group empties it, adds its rows to the new name if there is one, and leaves every other group its size |
| `GroupCounts.TextBucketCanDisagree` | crates/clipboard-core/src/store.rs:919-971 | an input for which text disagrees: one row in a user group of that name |
| `GroupCounts.SecretBucketCanDisagree` | crates/clipboard-core/src/store.rs:934-960 | an input for which secret disagrees: one secret filed under another name |
| `Delivery.ClipboardModule.StackDeliverHead` | crates/clipboard-core/src/module.rs:607-637 | one attempt: a secret head or a failed write stays on the stack, a written head leaves it whether or not it was injected |
| `Delivery.ClipboardModule.StackPasteAll` | crates/clipboard-core/src/module.rs:641-662 | ends for every stack and every port outcome, with the log, the rest of the queue and the report of the run |
| `Delivery.ReportBalances` | crates/clipboard-core/src/module.rs:641-662 | the initial length is delivered plus remaining, plus one when it stopped on a failed injection; what stays and what leaves |
| `Delivery.DeliveredIsPrefix` | crates/clipboard-core/src/module.rs:641-662 | the delivered entries are a prefix of the stack, in order |
| `Delivery.WriteThenInject` | crates/clipboard-core/src/module.rs:619-637 | each injection comes right after the successful write of the same entry |
| `Delivery.NoSecretIsWritten` | crates/clipboard-core/src/module.rs:741-763 | whatever the ports do, what is written is the full content of a row that is not secret |
| `Delivery.StopsAt` | crates/clipboard-core/src/module.rs:607-637 | a run stops at the first entry that is secret, cannot be read, or fails at a port, and says which |
| `Delivery.LiveStackNeverBreaks` | crates/clipboard-core/src/module.rs:607-637 | in a reachable state a run always answers a report |
| `Delivery.OnePortARow` | crates/clipboard-core/src/module.rs:698-763 | each row is open to exactly one port: pasting for plain rows, revealing for secret ones, and a reveal succeeds exactly when the ciphertext opens |
| `Backup.ExportRows` | crates/clipboard-core/src/module.rs:811-851 | exports exactly the chosen rows newest first with their counts, or fails when one of the chosen secrets does not open |
| `Backup.ExportBalances` | crates/clipboard-core/src/module.rs:811-851 | every row is written, skipped for its blob or a secret left out on request, and the secrets counted are all the exportable ones |
| `Backup.SourcesAreOrdered` | crates/clipboard-core/src/module.rs:811-851 | what is written is newest first and holds no secret unless secrets are asked for |
| `Backup.ImportFailsIff` | crates/clipboard-core/src/store.rs:1195-1212 | an import fails if and only if some row is a secret without readable plaintext or without protection, whatever the store holds |
| `Backup.ImportErrorIs` | crates/clipboard-core/src/store.rs:1195-1212 | the first row that cannot be restored decides the error, an unreadable plaintext before a missing ciphertext |
| `Backup.ImportCounts` | crates/clipboard-core/src/store.rs:1181-1248 | imported plus duplicates plus skipped images is the number of rows, and the table grows by the imported |
| `Backup.SecondImportAddsSecretsOnly` | crates/clipboard-core/src/store.rs:1172-1180 | a second import of the same backup adds its secret rows and nothing else |
| `BackupRoundTrip.SourcesAreTheInlineRows` | crates/clipboard-core/src/store.rs:1146-1178 | an export with secrets takes exactly the rows without a blob, each once |
| `BackupRoundTrip.RoundTrip` | crates/clipboard-core/src/store.rs:1181-1248 | export with secrets, clear, import: as many rows as were exported, no duplicates, no skipped images, and the invariant holds |
| `BackupRoundTrip.RoundTripRow` | crates/clipboard-core/src/store.rs:1181-1248 | each restored row has the kind, source app, pin and text or decrypted secret of the original, and for text rows the group and html (html not for secrets); its time is the import's and its counters and suggestion start anew |
| `BackupRoundTrip.ImportKeeps` | crates/clipboard-core/src/store.rs:1181-1248 | an import with new ciphertexts keeps the store's invariant |
| `BackupRoundTrip.ImportIsARun` | crates/clipboard-core/src/store.rs:1181-1248 | a transactional import ends where the run of its captures and pins ends, so all that holds of runs holds of imports |
| `BackupRoundTrip.ImportKeepsPayloads` | crates/clipboard-core/src/store.rs:1181-1248 | an import changes the payload of no row that was there |
| `BackupRoundTrip.ImportPinsItsRow` | crates/clipboard-core/src/store.rs:1181-1248 | a pinned row of a backup leaves the row with its content pinned, also when it was there, and no row of another content changes |
| `BackupFile.ExportBackup` | crates/clipboard-core/src/module.rs:791-887 | the passphrase gate first, then undecryptable rows, then the file |
| `BackupFile.ImportBackup` | crates/clipboard-core/src/module.rs:891-930 | a failed envelope, passphrase or count check leaves the store as it was |
| `BackupFile.FileTrip` | crates/clipboard-core/src/module.rs:791-930 | the round trip through a file opened with its own passphrase |
| `BackupFile.OnlyTheExportedEnvelopeOpens` | crates/clipboard-core/src/backup.rs:214-280 | around an exported box a file opens only with the exported schema, key derivation, encoding, nonce length and row count |
| `BackupFile.OpensOnlyUnderItsOwn` | crates/clipboard-core/src/backup.rs:236-270 | a box that was tampered with or sealed under another passphrase never opens |
| `Pipeline.CapturePipeline.Ingest` | crates/clipboard-core/src/pipeline.rs:274-336 | pause, excluded app, blocked content and switches are tried in that order; what passes is stored once and announced once |
| `Pipeline.ListedLeavesNoTrace` | crates/clipboard-core/src/pipeline.rs:290-299 | what comes from an application on the list, up to ASCII case, leaves the pipeline exactly as it was |
| `Pipeline.UnlistedPassesTheList` | crates/clipboard-core/src/pipeline.rs:290-299 | what does not is treated as if the list were empty |
| `Pipeline.BlockedIsCountedOnly` | crates/clipboard-core/src/pipeline.rs:304-312 | a text that any rule finds is counted as blocked and leaves nothing else |
| `Pipeline.UnwantedLeavesNoTrace` | crates/clipboard-core/src/pipeline.rs:315-386 | white space, a switched-off kind, an empty list and an unprotected secret leave no trace |
| `Pipeline.NewArrivalIsStored` | crates/clipboard-core/src/pipeline.rs:338-467 | anything else that is new makes one row with what came with it and one event that names it: the group only where the switch says so, a secret only as ciphertext and without its HTML |
| `Pipeline.AnnouncedNamesTheArrival` | crates/clipboard-core/src/pipeline.rs:338-467 | whatever was there, the announced id is that of the row with the kept bytes and of no other |
| `Pipeline.PurgeKeepsRetention` | crates/clipboard-core/src/pipeline.rs:388-396 | after the purge that follows an arrival every unpinned row is inside the retention period |
| `Pipeline.SecretsStaySealed` | crates/clipboard-core/src/pipeline.rs:338-386 | over any run, the bytes of a text detected as secret never become a row's content or a file |
| `Pipeline.PausedOnlyCounts` | crates/clipboard-core/src/pipeline.rs:281-285 | while paused nothing is stored or announced and every arrival is counted as skipped |
| `Pipeline.RowsStayBounded` | crates/clipboard-core/src/pipeline.rs:391-399 | for every run of arrivals of all kinds, from any store: at most the limit, 49 unpinned rows of slack, and one for each image or file list kept since the last purge |
| `Pipeline.CountedStayNearTheLimit` | crates/clipboard-core/src/pipeline.rs:388-396 | text captures alone, and runs with images and file lists switched off, never leave a store that was within the limit with more unpinned rows than the limit and 49 |
| `Pipeline.StaysNearIff` | crates/clipboard-core/src/pipeline.rs:320-396 | a configuration keeps every run from the empty store within its limit and 49 unpinned rows if and only if it captures neither images nor file lists |
| `Pipeline.ImagesEscapeTheLimit` | crates/clipboard-core/src/pipeline.rs:413-467 | a new image or file list is one more unpinned row and brings the next purge no nearer |
| `Pipeline.UncountedPileUp` | crates/clipboard-core/src/pipeline.rs:413-467 | under every configuration with the switch on, whatever its limit, and for every n: n different images, or n different file lists, leave n unpinned rows with no purge |
| `SearchSyntax.Tokenize` | crates/clipboard-core/src/query.rs:67-87 | the loop computes the quote-aware split |
| `SearchSyntax.ParseSearchSyntax` | crates/clipboard-core/src/query.rs:18-52 | the last group token, the last known type token, whether any type is unknown, and the literal tokens joined |
| `SearchSyntax.KeyDecides` | crates/clipboard-core/src/query.rs:23-48 | only the two keys are syntax: a type is one of the three or unknown, an empty group and any other key are literal |
| `SearchSyntax.OtherTokensAreLiteral` | crates/clipboard-core/src/query.rs:54-65 | URLs, tokens without a colon and with an empty side are literal |
| `SearchSyntax.LastGroupWins` | crates/clipboard-core/src/query.rs:29-38 | of several group tokens the last decides |
| `SearchSyntax.LastTypeWins` | crates/clipboard-core/src/query.rs:39-46 | of several known type tokens the last decides |
| `SearchSyntax.LiteralsInOrder` | crates/clipboard-core/src/query.rs:21-50 | the literal tokens keep their order |
| `SearchSyntax.RetokenizeJoined` | crates/clipboard-core/src/query.rs:67-87 | joining tokens with spaces and splitting again gives the same tokens, an unclosed final quote included |
| `SearchSyntax.ReparseIsIdentity` | crates/clipboard-core/src/query.rs:18-52 | parsing the residual text of a parsed query changes nothing and finds no syntax in it |
| `SearchSyntax.GroupQueryRoundTrip` | crates/clipboard-core/src/query.rs:54-95 | a quoted, quote-free group name comes back as itself if and only if it is trimmed, not empty and without :// |
| `LiteralRegex.ToLiteralRegex` | crates/clipboard-core/src/query.rs:107-116 | the loop computes the escaping |
| `LiteralRegex.UnescapeInverts` | crates/clipboard-core/src/query.rs:98-116 | dropping the backslashes gives the text back |
| `LiteralRegex.EscapeInjective` | crates/clipboard-core/src/query.rs:98-116 | different texts give different patterns |
| `LiteralRegex.EscapedMatchesIffContains` | crates/clipboard-core/src/query.rs:98-116 | the pattern compiles and matches a text exactly when the text contains the original |
| `LiteralRegex.BlocksIffContains` | crates/clipboard-core/src/pipeline.rs:40-62 | with rules made from picked texts, a capture is blocked exactly when it contains one of them |
| `LiteralRegex.BlocksWithFirst` | crates/clipboard-core/src/pipeline.rs:40-62 | the reported rule is that of the first picked text the capture contains |
| `LiteralRegex.BadRuleOnlyCancelsItself` | crates/clipboard-core/src/pipeline.rs:40-62 | a rule that does not compile has no effect on the others, whatever they are |
| `LiteralRegex.MalformedRules` | crates/clipboard-core/src/pipeline.rs:40-62 | rules that do not compile: an operator with nothing before it, and any pattern that is read followed by a backslash with nothing after it |
| `LiteralRegex.QuantifierExact` | crates/clipboard-core/src/pipeline.rs:40-62 | a rule with an operator matches any number of characters of the atom before it that the operator allows, and no other number |
| `CheckDigits.LuhnValid` | crates/clipboard-core/src/secrets.rs:105-126 | true exactly for at least 13 digits whose Luhn sum is a multiple of ten |
| `CheckDigits.LuhnSumFromRight` | crates/clipboard-core/src/secrets.rs:105-126 | the check digit is not doubled, its left neighbour is, and so on alternating |
| `CheckDigits.LuhnRejectsOneChange` | crates/clipboard-core/src/secrets.rs:105-126 | changing one character of a valid number is always rejected |
| `CheckDigits.LuhnSwapAcceptedIff` | crates/clipboard-core/src/secrets.rs:105-126 | exchanging neighbours of a valid number is accepted if and only if they are equal or 0 and 9 |
| `CheckDigits.LuhnCheckDigitExists` | crates/clipboard-core/src/secrets.rs:105-126 | every payload has a check digit |
| `CheckDigits.LuhnCheckDigitUnique` | crates/clipboard-core/src/secrets.rs:105-126 | and only one |
| `CheckDigits.IdIsMod11Two` | crates/clipboard-core/src/secrets.rs:129-142 | the identity check is the MOD 11-2 congruence with powers of two as weights |
| `CheckDigits.IdOneChangeIff` | crates/clipboard-core/src/secrets.rs:129-142 | changing one character of a valid identity number is accepted if and only if it counts the same: the digit value among the first 17, the character up to case at the end |
| `CheckDigits.IdRejectsOneChange` | crates/clipboard-core/src/secrets.rs:129-142 | changing one digit of a valid ASCII identity number into another is rejected |
| `CheckDigits.ForeignDigitPasses` | crates/clipboard-core/src/secrets.rs:56-142 | an input for which a change is accepted: a 0 becomes a digit of another script |
| `CheckDigits.IdSwapAcceptedIff` | crates/clipboard-core/src/secrets.rs:129-142 | exchanging neighbours among the first 17 is accepted if and only if their digit values are equal |
| `CheckDigits.IdLastSwap` | crates/clipboard-core/src/secrets.rs:129-142 | exchanging the last digit with the check character: rejected for digits; for X accepted exactly when the digit is 1, which the shape rule keeps out |
| `Cooldown.CooldownTable.TryFire` | crates/automation-core/src/engine.rs:70-87 | passes or suppresses by the rule's last accepted time, and records which |
| `Cooldown.NextAcceptedIsPastTheGate` | crates/automation-core/src/engine.rs:70-87 | each accepted call of a rule lies at least the gate after the one before, whatever the clock does and whatever the gate is |
| `Cooldown.AcceptedAreSpaced` | crates/automation-core/src/engine.rs:70-87 | any two accepted calls of a rule lie at least the gate apart, when the gate is not negative |
| `Cooldown.KeepsApartIff` | crates/automation-core/src/engine.rs:70-87 | over all call sequences, accepted calls keep the configured distance if and only if the cooldown is at most 9223372036854775 seconds |
| `Cooldown.AcceptedInWindow` | crates/automation-core/src/engine.rs:70-87 | for those cooldowns a window lets through at most its length over the cooldown, plus one |
| `Cooldown.AcceptedPlusSuppressed` | crates/automation-core/src/engine.rs:70-87 | accepted plus suppressed is the number of calls |
| `Cooldown.RulesAreIndependent` | crates/automation-core/src/engine.rs:70-87 | calls for other rules change nothing for this one |
| `Cooldown.WrappedGateIsTooNarrow` | crates/automation-core/src/engine.rs:70-77 | for every longer cooldown two calls that both pass and are closer than it |
| `Cooldown.WrappedGates` | crates/automation-core/src/engine.rs:70-77 | two such gates: one negative, one of 384 milliseconds |
| `RuleEngine.RunAction` | crates/automation-core/src/engine.rs:91-139 | at most three attempts, the audit event after the first success, the last error when all three fail |
| `RuleEngine.AttemptsExact` | crates/automation-core/src/engine.rs:99-138 | attempts go on until the first success and no further than the third, and an action fails with the error of its third attempt |
| `Rules.CallsWhatItNames` | crates/automation-core/src/engine.rs:102-110 | an action calls the topic with the payload, the URL, the module's command with its arguments, or the script's function that it names |
| `Rules.NotificationCarries` | crates/automation-core/src/engine.rs:104-107 | a notification goes out as an event that carries the rule, the title and the body |
| `Rules.AuditCarries` | crates/automation-core/src/engine.rs:111-117 | what is reported after a success carries the id and the name of the rule |
| `RuleEngine.RunActions` | crates/automation-core/src/engine.rs:217-240 | every action in turn: the calls, the errors and the letters of the failed ones |
| `RuleEngine.Engine.Fire` | crates/automation-core/src/engine.rs:210-258 | condition, then cooldown, then all actions; one history record; the queue extended and cut to its last 100; no two letters ever share an id |
| `RuleEngine.Engine.Replay` | crates/automation-core/src/engine.rs:266-292 | with nobody in between: the letter goes, its action runs, and a failed run puts one letter with a new id at the end; no two letters ever share an id |
| `RuleEngine.OutcomeExact` | crates/automation-core/src/engine.rs:91-139 | success, failure or partial exactly according to which actions exhausted their attempts, with the failed indices increasing |
| `RuleEngine.RecordNamesFirstError` | crates/automation-core/src/engine.rs:228-246 | the history record carries the error of the first failed action, and none exactly when it reports success |
| `RuleEngine.RecordTellsFiring` | crates/automation-core/src/engine.rs:228-246 | the record names the rule, the time and the number of actions, and reports success, failure or exactly the failed indices in order |
| `RuleEngine.LettersExact` | crates/automation-core/src/engine.rs:217-257 | one letter per failed action, in order, with its own action and error |
| `DeadQueue.DeadQueueIsLastOfLog` | crates/automation-core/src/engine.rs:247-257 | while rules only fire, the dead queue is the last 100 letters of everything that ever failed, from the first failure on even when more than 100 were stored |
| `DeadLetters.QueueBound` | crates/automation-core/src/engine.rs:247-306 | over every interleaving of firings, clears and replays at their lock boundaries, any number of them for one letter: at most 100 letters, plus the replays in flight at the last trim that have ended, plus the lookups since of a letter somebody already held |
| `DeadLetters.CapHoldsUndisturbed` | crates/automation-core/src/engine.rs:266-306 | when no firing lands inside a replay and no letter is replayed twice at once the queue never exceeds 100 |
| `DeadLetters.CapSafeIff` | crates/automation-core/src/engine.rs:247-306 | as long as no letter is replayed twice at once, until the next firing the queue stays within 100, whatever replays and clears do, if and only if the letters nobody holds and the replays in flight are at most 100 together |
| `DeadLetters.CapExceededByAny` | crates/automation-core/src/engine.rs:247-292 | for every n some run ends with 100 + n letters and no replay in flight, n being the replays in flight at the last trim: the bound is tight |
| `DeadLetters.SameLetterReplays` | crates/automation-core/src/engine.rs:266-292 | without any firing, n + 1 replays at once of one letter that all fail leave n letters more than there were: two of them take 100 letters to 101 |
| `DeadLetters.DoublesSafeIff` | crates/automation-core/src/engine.rs:266-292 | when letters may be replayed twice at once, a state from which no run without firings passes 100 letters is one with an empty queue and no replay in flight, and only such a one |
| `DeadLetters.EngineIsARun` | crates/automation-core/src/engine.rs:210-306 | every sequence of calls of fire, replay and clear_dead is a run of the protocol, each replay a lookup, a removal and an end |
| `DeadLetters.EngineKeepsTheCap` | crates/automation-core/src/engine.rs:210-306 | so, called one at a time, they keep the queue within 100 letters and all letter ids apart |
| `History.RunHistory.Push` | crates/automation-core/src/history.rs:92-106 | appends and keeps the last 500 |
| `History.RunHistory.Runs` | crates/automation-core/src/history.rs:109-116 | the tail of the ring, never more than 500 |
| `History.RingIsLastOfLog` | crates/automation-core/src/history.rs:92-106 | after any pushes the ring is the last 500 records of everything ever pushed |
| `History.LimitedReadIsTailOfLog` | crates/automation-core/src/history.rs:109-116 | a limited read is the tail of the full log |
| `DryRun.RunMatchesPlan` | crates/automation-core/src/dryrun.rs:30-76 | a firing touches the external ports for exactly the actions the plan marks, in order |
| `DryRun.PlanNamesTheActions` | crates/automation-core/src/dryrun.rs:30-76 | one line an action in order, under the name of its kind, marked exactly when the condition holds and the action leaves the event bus |
| `DryRun.PlannedBlocksShape` | crates/automation-core/src/dryrun.rs:30-76 | one to three times each, and not at all when the condition fails |
| `Conditions.GetPath` | crates/automation-core/src/rule.rs:65-81 | the loop follows the dotted path through objects and arrays |
| `Conditions.PathsCompose` | crates/automation-core/src/rule.rs:65-81 | a dotted path goes where its first part goes and on from there |
| `Conditions.OneSegment` | crates/automation-core/src/rule.rs:65-81 | a path without dots is a field of an object or an item of an array |
| `Conditions.IndexReads` | crates/automation-core/src/rule.rs:73-76 | an item is named by its index in decimal, with a plus sign or without |
| `Conditions.ComparisonsAreTotal` | crates/automation-core/src/rule.rs:83-109 | between two numbers or two strings exactly one of less, equal and greater holds, and between other values neither less nor greater |
| `Conditions.OrderIsThatOfNumbers` | crates/automation-core/src/rule.rs:90-98 | numbers are compared as numbers across integer and float |
| `Conditions.FirstDifferenceDecides` | crates/automation-core/src/rule.rs:92-99 | a string is below its extensions, and otherwise the first difference decides |
| `Conditions.ContainsExact` | crates/automation-core/src/rule.rs:102-106 | a string contains its substrings, an array what equals an item, and nothing else contains anything |
| `Conditions.BelowTransitive` | crates/automation-core/src/rule.rs:92-99 | the string order is transitive |
| `Conditions.MissingIsNullIff` | crates/automation-core/src/rule.rs:64-87 | a missing path compares as null does, except exactly in an equality or inequality test against null |
| `Conditions.EqualityIsLenientIff` | crates/automation-core/src/rule.rs:111-117 | equality takes no notice of whether numbers are integers or floats if and only if the value is a number or holds none at any depth |
| `Conditions.ComplementIsNegation` | crates/automation-core/src/rule.rs:49-89 | a condition with its negations pushed down to the comparisons holds exactly when the condition does not, for lists of any length and depth and for missing paths |
| `Conditions.AndGrows` | crates/automation-core/src/rule.rs:57 | a conjunction with one more condition holds exactly when both hold |
| `Conditions.OrGrows` | crates/automation-core/src/rule.rs:58 | a disjunction with one more condition holds exactly when either does |
| `Conditions.EmptyLists` | crates/automation-core/src/rule.rs:57-58 | the empty conjunction holds and the empty disjunction does not |
| `Conditions.ExcludedMiddle` | crates/automation-core/src/rule.rs:49-62 | a condition and its negation never both hold, and one of them always does |
| `Scheduler.AutomationModule.StartDispatcher` | crates/automation-core/src/module.rs:369-386 | a start while running changes nothing; otherwise a fresh token and thread |
| `Scheduler.AutomationModule.StopModule` | crates/automation-core/src/module.rs:569-588 | cancels the current token |
| `Scheduler.OneLiveGeneration` | crates/automation-core/src/module.rs:444-479 | over any run of starts, stops and ticks at most one scheduler thread is live, and then the module is running |
| `Scheduler.CancelledForever` | crates/automation-core/src/module.rs:569-588 | a cancelled token stays cancelled |
| `Scheduler.NoFiringAfterCheck` | crates/automation-core/src/module.rs:444-479 | once its token is cancelled a thread fires at most the round it had already checked for |
| `Scheduler.NoFiringAfterStop` | crates/automation-core/src/module.rs:569-588 | after a stop, in any run, no thread fires beyond the round it had checked for, whatever starts and stops follow |
| `Scheduler.RepeatedStartsAreIdle` | crates/automation-core/src/module.rs:369-386 | any number of starts without a stop change nothing after the first |
| `Scheduler.NotReadyNeverRuns` | crates/automation-core/src/module.rs:369-386 | a module that is not ready never runs and has no thread, whatever is tried |
| `Scheduler.StartMakesOneLive` | crates/automation-core/src/module.rs:369-386 | a start of a stopped module leaves exactly the new thread live |
| `Scheduler.StopLeavesNoneLive` | crates/automation-core/src/module.rs:569-588 | a stop leaves no thread live |
| `Scheduler.LiveThreadFires` | crates/automation-core/src/module.rs:444-479 | a live thread fires once in every three of its steps |
| `Scheduler.DueExact` | crates/automation-core/src/module.rs:459-470 | exactly the enabled rules of that minute are due |
| `Scheduler.TickLoop.Ticks` | crates/automation-core/src/module.rs:450-479 | a run of ticks fires what the date rule says, tick by tick |
| `Scheduler.TickLoop.Tick` | crates/automation-core/src/module.rs:450-479 | fires the due rules unless the date is served |
| `Scheduler.FiresUnlessLastDueIsToday` | crates/automation-core/src/module.rs:450-479 | whatever the clock does and however the rules change, a tick fires its due rules unless the last tick with a rule due was of the same date |
| `Scheduler.FiresIffFirstDueOfDate` | crates/automation-core/src/module.rs:450-479 | on a clock that does not go back, exactly when no earlier tick of the same date had a rule due |
| `Scheduler.FiredIsExact` | crates/automation-core/src/module.rs:450-479 | what is fired carries the date of its tick and the id of a rule that fired then, and all of that is there |
| `Scheduler.FiresOncePerDate` | crates/automation-core/src/module.rs:450-479 | on a clock that does not go back no rule fires twice on one date, however often the loop wakes within its minute and however the rules are edited |
| `Scheduler.LaterRuleIsSkipped` | crates/automation-core/src/module.rs:450-479 | two rules for one day: the later one does not fire |
| `FuzzyMatch.FuzzyMatch` | crates/desktop-core/src/score.rs:27-74 | succeeds exactly when the folded query is a subsequence of the folded name, and with which scores |
| `FuzzyMatch.ScanFindsSubsequence` | crates/desktop-core/src/score.rs:50-66 | the greedy scan exhausts the query exactly when it is a subsequence |
| `FuzzyMatch.BestIsExact` | crates/desktop-core/src/score.rs:50-66 | the best run is the longest stretch of consecutive positions in the greedy alignment |
| `FuzzyMatch.BestIsContiguousBlock` | crates/desktop-core/src/score.rs:50-66 | it is the length of a query block that occurs contiguously in the name |
| `FuzzyMatch.IsBoundaryStart` | crates/desktop-core/src/score.rs:77-90 | true exactly when the query starts at some word boundary |
| `FuzzyMatch.IsAcronymPrefix` | crates/desktop-core/src/score.rs:93-112 | true exactly when the query starts the acronym |
| `FuzzyMatch.WordStartIsSubsequence` | crates/desktop-core/src/score.rs:77-112 | a boundary or acronym start is always a subsequence |
| `FuzzyMatch.WholeRunIff` | crates/desktop-core/src/score.rs:50-66 | the whole query counts as one run if and only if it stands in the name where its first character first does |
| `FuzzyMatch.ContiguityOneIff` | crates/desktop-core/src/score.rs:16-74 | contiguity is 1 if and only if the folded query stands in the folded name where its first character first does |
| `FuzzyMatch.FullPrefixIsContiguous` | crates/desktop-core/src/score.rs:27-74 | a full-prefix hit has contiguity 1 |
| `FuzzyMatch.FullPrefixOutranks` | crates/desktop-core/src/score.rs:20-24 | a full-prefix hit strictly outranks every other hit of the same frequency |
| `FuzzyMatch.WordStartOutranks` | crates/desktop-core/src/score.rs:20-48 | a word-start hit strictly outranks every hit that is neither that nor a full prefix, for the same frequency |
| `FuzzyMatch.TotalGrows` | crates/desktop-core/src/score.rs:20-24 | a better prefix, more contiguity and more use each raise the score |
| `FuzzyMatch.WordsStartThere` | crates/desktop-core/src/score.rs:77-90 | the beginning, what follows one of the four separators, and a capital are word boundaries |
| `FuzzyMatch.AcronymIsInitials` | crates/desktop-core/src/score.rs:93-112 | the acronym is made of the letters that start a word, told from the neighbouring characters alone |
| `FuzzyMatch.GreedyMayMissTheBlock` | crates/desktop-core/src/score.rs:50-66 | an input whose longest common block the greedy run misses |
| `Reminder.ParseTime` | crates/desktop-core/src/note.rs:289-361 | the scan computes the time of day |
| `Reminder.TimeIsLegal` | crates/desktop-core/src/note.rs:289-370 | every parsed time is a legal hour and minute, and an afternoon o'clock is 12 + h mod 12 |
| `Reminder.ColonIgnoresHalfDay` | crates/desktop-core/src/note.rs:293-308 | the colon form takes no notice of the half-day prefix, whichever of the six it is |
| `Reminder.AfternoonColonIsNight` | crates/desktop-core/src/note.rs:293-361 | an input: half past three in the afternoon, with a colon, is read as 3:30 |
| `Reminder.TwelveIsNoon` | crates/desktop-core/src/note.rs:289-370 | after each of the six half-day prefixes twelve o'clock is noon, before dawn and late in the evening too |
| `Reminder.ClockReadsDigits` | crates/desktop-core/src/note.rs:318-361 | the digits around the first colon are hour and minute, or there is no time |
| `Reminder.OClockReadsMinutes` | crates/desktop-core/src/note.rs:318-345 | half past is 30, other digits are the minute, more than 59 is none |
| `Reminder.NamedDayIsReached` | crates/desktop-core/src/note.rs:217-258 | a reminder with a day word is on that local day, for today within the next 24 hours |
| `Reminder.ReminderIsAtItsTime` | crates/desktop-core/src/note.rs:200-228 | whatever the day, it is at the written time or at nine by the local clock |
| `Reminder.NamedWeekdayIsNext` | crates/desktop-core/src/note.rs:262-281 | a text with a weekday name is for the next such day, one to seven days from now's UTC day |
| `Reminder.SameDayIsWithinADay` | crates/desktop-core/src/note.rs:217-228 | a same-day reminder falls in (now, now + 24 h] |
| `Reminder.OffsetLandsOnDay` | crates/desktop-core/src/note.rs:217-228 | any other day offset lands on exactly that local day |
| `Reminder.FutureIffNotYesterday` | crates/desktop-core/src/note.rs:217-228 | a reminder is in the future unless its text has the word for yesterday and none of the four day words looked for before it, and then it is not |
| `Reminder.YesterdayIsPast` | crates/desktop-core/src/note.rs:217-258 | an input in the past: the bare word for yesterday, at any time |
| `Reminder.ThreeDaysAgoIsToday` | crates/desktop-core/src/note.rs:229-245 | an input: the documented word for three days ago, with an o'clock time, is read as the same day |
| `Reminder.WeekdayOffsetExact` | crates/desktop-core/src/note.rs:272-281 | the weekday offset is the one number from 1 to 7 that leads from now's UTC day to that weekday |
| `Reminder.WeekdayIsLocalIff` | crates/desktop-core/src/note.rs:272-281 | it is the local weekday if and only if local and UTC date agree |
| `Reminder.WeekdayCanBeOffByOne` | crates/desktop-core/src/note.rs:272-281 | an input for which it is not: 20:00 UTC on a Thursday, eight hours east |

## Left out

- SQLite itself: full-text search and ranking, paging, migrations, statistics and the previews of lists.
- Files as the operating system sees them: overwriting before unlinking, renaming, and failures to remove or
  to read a file that is there. A blob name is a digest and an extension.
- Cryptography: Argon2, AES-GCM, DPAPI and base64 are maps from ciphertexts to plaintexts, and a box that opens
  under one passphrase.
- The secret-detecting patterns and the classifier: their verdicts come with each arrival.
- The clipboard listener, the self-write marker and window, batching and worker shutdown in the pipeline, and the
  merging of events.
- `get_content` at the level of the store, which hands out the ciphertext of a secret that lies in a blob: the
  module refuses secrets before calling it, and only the module's ports are modelled.
- Persistence of rules, runs and dead letters; `RunScript` sandboxing; event subscriptions and rule validation.
- The previews of the dry-run plan: each line is the kind of its action and whether it will execute.
- Rounding and the 64-bit overflow of times: numbers in conditions and scores are reals, times are integers.
- Decoding of bytes that are not UTF-8 is simplified: any replacement will do, since the store writes what it
  encoded itself.
- Regular expressions beyond literals, the dot, anchors, escapes of metacharacters and the postfix operators:
  whether the engine finds a pattern with groups, classes or counts comes with each arrival.
- Frequency decay of the launcher, the note table, directory walks, window and tray code, WASM, plugins and
  the configuration store.
- BackupRoundTrip.RoundTripRow: file rows lose their group and secret rows their html, as in the source.
- Cooldown.KeepsApartIff: is for a rule whose cooldown stays the same over the calls, because the gate is
  read afresh at each call.
- StackRaces.MoveSafeWhileLastStays: is sufficient, not necessary; the exact condition is that on the table.
- Delivery.ClipboardModule.StackPasteAll: nothing else touches the stack during the run.
- Pipeline.SecretsStaySealed: is about whole contents and files; it does not cover a plaintext that stands inside
  a longer captured text or its html.
- DeadLetters.QueueBound: counts the replays in flight at the last trim, because with those in flight now the
  bound is false.
- DeadLetters.CapHoldsUndisturbed: is for runs in which no letter is replayed twice at once, because with doubles
  it is false.
