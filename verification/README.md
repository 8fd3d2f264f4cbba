# Hive Memory: verified model

Hive Memory is a memory store for agents in which every hook and every command is a
fresh process. Nothing stays in memory between calls, so correctness rests on file
protocols, on locked read-modify-write cycles, and on loops that juggle several
budgets at once. This Dafny project models those parts and proves what they promise.

    dafny verify dfyconfig.toml

## How the model is laid out

| module | models |
|---|---|
| `RebuildLock` | rebuilders and the pruner racing for one index lock file |
| `Words`, `Fingerprint` | 64-bit hashing of canonical files and the directory walk that sums it |
| `IndexFile`, `IndexRebuild`, `IndexProtocol` | the self-authenticating index generation, rebuilds that merge with the last good one, and rebuilds running concurrently under the lock |
| `MemoryBlock`, `ContextAssembly`, `ContextRules`, `ContextPacking` | bounded context: eligibility, supersession, deduplication, budgets, escaping, the rules of who is shown what, re-selection |
| `HookState`, `HookProtocol`, `DeliveryDrain`, `ReceiptLog` | session state under a timed lock, delivery bookkeeping, and the receipt log |
| `PromotionTarget`, `Promotion`, `PromotionProtocol` | crash-prone promotion of a raw note into a curated file |
| `TemplateExpansion` | `${NAME}` and `${NAME:-fallback}` in configured paths |
| `NoteFormat`, `Retag`, `ClassifierRun` | the note file format, the two-file retag, and the classifier's retry and failover loop |
| `Text`, `Sorting`, `Wrappers` | string operations, stable sorting and filtering, `Option` and `Result` |

**Code that changes things is imperative here too.** Objects whose methods update
their fields are classes (`HookRecord`, `CanonicalScan`, `IndexCache`, `LogFile`,
`Store`, `Record`, `Worker`), and loops are loops with invariants. Each such method is
proved equal to a function of its inputs or old state, and the promises are theorems
about that function.

**Concurrency** is an explicit machine. `Exec(state, event)` is total: an event that
is not enabled changes nothing. A schedule is any sequence of events, so a statement
about `Run(schedule)` covers every interleaving. Crashes are events; a crash drops the
file lock, as the kernel does. Inodes and call numbers are fresh. `write_atomic` is an
all-or-nothing replacement.

**What is not known is a parameter.** JSON, TOML, digests and RFC 3339 are functions
inside a `Codec`, and a theorem that needs something of them requires `Sound()`:
decoding inverts encoding, one-line JSON has no newline and is not blank, digests are
injective, a blank string is no timestamp. Validity, suppression and the search-only
class are functions in `Policy`. Environment variables are a function. Backend answers
are a function from the call number, so the classifier theorems hold for every pattern
of failures.

**Integers.** Hashes and epochs are words modulo 2^64 with wrapping operations; sizes
and counters are unbounded.

Each component's records carry only the fields that component reads. A field named
`rest` or `meta` stands for what it only copies.

## What turned out not to hold

For each of these the code is modelled as it is and the exact condition is proved.

* A retried promotion may append a note twice when the curated file is not valid
  UTF-8, because the marker search then gives up. It is safe exactly for UTF-8 files
  (`PromotionProtocol.AppendAtMostOnceIff`).
* Template expansion need not end when variable values mention variables. For values
  over a given set of characters it always ends exactly when that set lacks one of
  `$`, `{` and `}` (`TemplateExpansion.TerminatesIff`).
* A printed note does not parse back when its body has a carriage return, or when its
  TOML (a multi-line value, say) holds a `+++` line followed by an empty line; these
  are the only cases (`NoteFormat.RoundTripIff`, failing input
  `NoteFormat.CarriageReturnLost`).
* For the same reason a retag that reports success may leave a note that no longer
  reads back. It reads back, and the rebuilt entry is the one asked for, exactly when
  the edited front matter prints without such a line (`Retag.RetagAgreesIff`).
* A retag whose event rewrite fails has rewritten the note already. The index then
  still serves the event's scope, project, kind and provenance, as far as it has them
  (`Retag.FailedRetagServes`).
* The comment on `split_front_matter` (src/note.rs:421-426) says a body that follows
  the delimiter directly is kept. The code looks for the delimiter with an empty line
  first, so a later one wins. `NoteFormat.DirectBodyIff` says when the body is kept,
  and `NoteFormat.LeadingNewlineLost` shows a leading newline being dropped.
* After a rebuild that published over a store that held still, the projection served
  from the fresh cache is the reported one exactly when neither the notes it read nor
  the previous generation hold an id that starts with `curated:`
  (`IndexRebuild.ProjectionAgreesIff`; `IndexRebuild.CuratedLookingNote` shows one
  such note being served twice).
* A promotion can succeed without the note's text ever reaching the file: when another
  note's block quotes its marker, the marker search takes that for the note's own. For
  given requests this cannot happen exactly when no block quotes another note's marker
  (`PromotionProtocol.SuccessMeansTextIff`, failing input `PromotionProtocol.QuotingBody`).
* A memory outside all projects can hide a project's memory as its duplicate, because
  the duplicate key is one string. Two groups can be confused exactly when one key goes
  on from the other with a lower-case, single-spaced text (`ContextRules.ConfusedIff`).
* The validity window of a paired record can be out of order although note and event
  each have theirs in order (`Retag.WindowOutOfOrderIff`).
* One selection can send a text twice when two undelivered sections have the same id
  and digest (`DeliveryDrain.OneRoundDistinct`).
* Bookkeeping stamped before a context reset is dropped unless the number of resets in
  between is a multiple of 2^64 (`HookState.StaleUpdate`).

## Model

| member | source | states |
|---|---|---|
| RebuildLock.MutualExclusion | src/index.rs:381-429 | in every interleaving of rebuilders, pruners and crashes at most one call holds a verified rebuild lock |
| RebuildLock.UnlinkIsSafe | src/index.rs:889-942 | whenever the lock path disappears, nobody holds the lock, the index it guards is unreferenced, and the inode removed is the one the pruner locked |
| RebuildLock.GrantIsStable | src/index.rs:381-420 | from grant to release the path keeps naming the holder's inode, whatever all other calls do |
| RebuildLock.RunKeepsInv | src/index.rs:381-429 | every call past its inode comparison owns the flock on the inode the path names now, in every reachable state |
| RebuildLock.NeverWaits | src/index.rs:381-420 | nobody waits: whatever others do in between, after at most thirteen steps of its own a new rebuilder holds the lock or is over, and after nine a pruner is |
| RebuildLock.GrantedIff | src/index.rs:381-412 | in every reachable state a new rebuilder gets a free lock in three steps, and is turned away from a held one in two, leaving everything as it was |
| RebuildLock.ReplacedIsRetried | src/index.rs:401-420 | a rebuilder whose lock file was unlinked under it tries again with the one the path names now, as long as it has attempts left |
| RebuildLock.PrunerRemoves | src/index.rs:889-942 | in every reachable state a pruner that meets a free lock and no index removes the lock path and nothing else |
| Fingerprint.FileIdentityHash | src/index.rs:1667-1684 | the byte loop computes FNV-1a over path, size and mtime followed by the finalizer |
| Fingerprint.FinalizeInjective | src/index.rs:1679-1683 | xorshifts and odd multiplications make the finalizer injective on 64-bit words |
| Fingerprint.FnvSensitive | src/index.rs:1675-1678 | two byte strings that differ in one byte never hash alike |
| Fingerprint.EncodeInjective | src/index.rs:1671-1675 | equal encodings mean equal path, size and mtime although nothing separates them |
| Fingerprint.CanonicalScan.Collect | src/index.rs:1580-1649 | the walk's totals are the counts, maxima and hash sum of exactly the directories and files below |
| Fingerprint.Scan | src/index.rs:1539-1568 | one walk over all trees reports exactly their directories and files |
| Fingerprint.OrderIndependent | src/index.rs:1580-1649 | listing entries in another order at any level changes nothing |
| Fingerprint.OneFileChanged | src/index.rs:1641-1645 | when one file changes, the combined word changes if and only if that file's hash does |
| Fingerprint.ByteChangeDetected | src/index.rs:1506-1537 | one changed byte in one file's path, size or mtime always changes the combined word |
| IndexFile.RenderJsonl | src/index.rs:1402-1430 | the loop writes the authenticating header line and one line per entry |
| IndexFile.RowsRoundTrip | src/index.rs:1146-1196 | rows read back as exactly the entries written |
| IndexFile.RenderRoundTrip | src/index.rs:1402-1444 | a published file reads back whole and validates |
| IndexFile.Integrity | src/index.rs:1432-1459 | anything that validates under a generation's digests holds exactly its entries and stored projection |
| IndexFile.DamagedRows | src/index.rs:545-562 | any change below the header either invalidates the file or leaves the entries as published |
| IndexFile.TornFile | src/index.rs:1146-1185 | a file cut at any point either fails to validate or yields the published entries |
| IndexFile.FreshIff | src/index.rs:545-562 | a header line followed by rows, whoever wrote them, is served as fresh exactly when cap, format, schema, stamp, count and both digests are right |
| IndexRebuild.MergeRegressedSnapshot | src/index.rs:951-984 | the loop with its position map computes the merge of previous entries into the candidates |
| IndexRebuild.MergeCovers | src/index.rs:951-984 | a merge keeps every id, and every id that has an event, of both generations |
| IndexRebuild.MergeKeeps | src/index.rs:951-984 | candidates that did not regress are kept unchanged and nothing new appears |
| IndexRebuild.MergeIdempotent | src/index.rs:951-984 | with distinct ids a second merge against the same generation restores and changes nothing |
| IndexRebuild.RestoreWarnedCuratedEntries | src/index.rs:1046-1074 | the loop computes the restored projection |
| IndexRebuild.RestoredCurated | src/index.rs:1046-1085 | exactly the curated entries a warning hides come back: one per id, every id this walk did not find and none that it did, and what it found stays copy for copy |
| IndexRebuild.IndexCache.RebuildIndex | src/index.rs:637-791 | one rebuild leaves the cache file and the report of the specification, whose meaning the next rows state, on every error path too |
| IndexRebuild.ChangedStore | src/index.rs:734-752 | when the two scans differ the file stays and nothing is published or current; a report is given exactly when nothing failed and a last good generation exists, and it is what the old file serves |
| IndexRebuild.ChangedStoreServesLast | src/index.rs:734-749 | after a published file that report is exactly its entries and hydrated projection |
| IndexRebuild.PublishedForOneScan | src/index.rs:729-780 | a rebuild that does not publish leaves the file alone; what one publishes is fresh for exactly one scan, taken both before and after the notes were read |
| IndexRebuild.FreshMeansScanned | src/index.rs:637-791 | over any sequence of rebuilds, what is served as fresh for a scan is the first file or the generation of a rebuild that took this very scan before and after reading |
| IndexRebuild.CurrentIff | src/index.rs:753-790 | a report calls itself current exactly when the scans agree, nothing was warned about and every entry served before is still there with its event; it then holds what was read |
| IndexRebuild.LastGoodGeneration | src/index.rs:641-651 | the last good generation is the whole of a published file of this store, the entries of one of the older schema, and nothing of any other |
| IndexRebuild.RebuildCovers | src/index.rs:637-791 | one rebuild never serves less than before, and a published one covers what this walk read |
| IndexRebuild.HistoryNeverShrinks | src/index.rs:637-791 | over any sequence of rebuilds with any views, every id and every event-backed id ever served is still served |
| IndexRebuild.FreshReadAgrees | src/index.rs:507-562 | after a rebuild over a store that held still, a fresh read serves exactly the reported entries and hydrated projection |
| IndexRebuild.ProjectionAgreesIff | src/index.rs:1015-1023 | after a rebuild that published, the projection served is the reported one if and only if no note read and no entry served before looks curated |
| IndexRebuild.ProjectionContentsAgreeIff | src/index.rs:1015-1074 | the same up to order for every rebuild that published, also when curated entries were brought back |
| IndexRebuild.CuratedLookingNote | src/index.rs:1015-1023 | the smallest failure: a single note whose id looks curated is reported once and served twice |
| IndexProtocol.ConcurrentHistoryNeverShrinks | src/index.rs:450-500 | with locking, reading and publishing as separate steps of any number of rebuilders, pruners and crashes, nothing served in a reachable state is lost later while the cache is not removed |
| IndexProtocol.RebuildsLinearize | src/index.rs:450-500 | the cache file is what the finished rebuilds make one after another, so no interleaving loses one |
| IndexProtocol.OnePublisher | src/index.rs:381-420 | at most one call is in a position to publish at any moment |
| IndexProtocol.UnlinkOnlyWithoutCache | src/index.rs:889-942 | the lock path goes away only when there is no cache file and no holder |
| IndexProtocol.ServedAsScanned | src/index.rs:507-562 | in every interleaving, what is served as fresh for a scan was there at the start or comes from a rebuild that took this very scan before and after reading the notes |
| IndexProtocol.LoneRebuild | src/index.rs:450-500 | in every reachable state a rebuild that meets a free lock and is left alone makes of the cache file what one rebuild makes of it |
| ContextAssembly.AssembleLocalIndexContext | src/context.rs:494-713 | the loop over sorted candidates computes the specified output, decisions and warnings included; who is shown what is stated by the rows of `ContextRules` |
| ContextAssembly.AssembleRefines | src/context.rs:502-713 | the sections are the longest run within the budget of the sorted, eligible, deduplicated candidates, and the Markdown is the header and exactly their blocks |
| ContextAssembly.FitLongest | src/context.rs:679-687 | the run that is sent fits, and one more block would not |
| ContextAssembly.DistinctKeys | src/context.rs:846-862 | no two kept candidates share a duplicate key and no key is lost |
| ContextAssembly.DistinctKeepsFirst | src/context.rs:671-674 | a candidate survives deduplication exactly when it is the first with its key |
| ContextAssembly.AlwaysSplittable | src/context.rs:252-271 | the packer accepts every assembled context and splits off exactly its header |
| ContextAssembly.WithinBudget | src/context.rs:887-889 | the estimate of what is sent never exceeds the larger of the header alone and the budget, and the running total never underestimates it |
| ContextAssembly.LargerBudgetExtends | src/context.rs:675-689 | a larger budget only extends the section list |
| ContextRules.AudienceNoninterference | src/context.rs:607-611 | two record lists that agree on what the viewer may read by scope, audience and writer give the same Markdown, sections, warnings and tokens |
| ContextRules.UnreadableRemoved | src/visibility.rs:16-30 | so all records the viewer may not read can be removed first |
| ContextRules.ReasonRule | src/context.rs:592-669 | a record is turned away at exactly the first rule it breaks: source, scope, project family, audience, correction, validity, body, search-only, each written out |
| ContextRules.CorrectedRule | src/context.rs:743-792 | corrections come from exactly the valid records of requested sources that the viewer may read, in rank order, whatever their scope and project |
| ContextRules.SectionsFollowRules | src/context.rs:592-704 | every section shows a record that source, scope, project, audience and corrections permit; no two are duplicates; curated before remembered before inbox, then confidence, time and path |
| ContextRules.NothingPassedOver | src/context.rs:671-687 | every permitted record is shown, or a duplicate that ranks no lower is, or the budget ended at a record that ranks no lower |
| ContextRules.DecisionsFollowRules | src/context.rs:592-704 | with explanations on, the decisions name in rank order the rule at which each record was turned away, audience only for those the viewer may not read |
| ContextRules.DuplicatesInGroup | src/context.rs:846-862 | within a project family, and among all other records, two records are duplicates exactly when their words agree up to ASCII case |
| ContextRules.ConfusedIff | src/context.rs:846-862 | texts of two groups can share a duplicate key exactly when what one group key has beyond the other is a lower-case, single-spaced text |
| ContextRules.AttributesReadBack | src/context.rs:1019-1040 | a reader of an opening line finds id, writer, store, scope, project and trust there, and nothing else, whatever they hold |
| ContextRules.HeaderReadsBack | src/context.rs:891-910 | a reader of the header finds store, agent, project, path, scopes and sources each on its own line |
| ContextRules.PointerReadsBack | src/context.rs:343-363 | a pointer carries the attributes of its block, the number of bytes left out and the command that reads them |
| ContextAssembly.ExplainChangesOnlyDecisions | src/context.rs:864-880 | asking for explanations changes only the decisions |
| ContextAssembly.DecisionsExact | src/context.rs:592-704 | with explanations on, every candidate up to the stop gets one decision with the right reason, in order, and warnings are exactly the unreadable ones |
| ContextAssembly.BoundariesHold | src/context.rs:1019-1040 | whatever memories and attributes hold, a reader of the assembled blocks ends outside with exactly one body per section, in order, each ending in the section's body, and equal to it when no attribute has a newline |
| MemoryBlock.EscapedLines | src/context.rs:1085-1107 | no line of an escaped body starts a boundary or front-matter marker after trimming, and the lines are the original ones up to a backslash |
| MemoryBlock.BlocksRoundTrip | src/context.rs:1019-1040 | scanning any sequence of blocks yields as many bodies, each ending in its escaped body, and the escaped bodies themselves when openings are single lines |
| MemoryBlock.EscapeAttrRoundTrip | src/context.rs:1071-1083 | an escaped attribute holds no quote or angle bracket and determines its value |
| ContextPacking.MeasureIsByteLength | src/context.rs:164-181 | each measure is the byte length of the text, or of the text as the inside of a JSON string (section 7 of RFC 8259), so it adds over concatenation |
| ContextPacking.JsonRoundTrip | src/context.rs:164-181 | the text whose length is measured is one a JSON reader reads back, with no raw quote, control character or DEL |
| ContextPacking.SelectSections | src/context.rs:248-341 | the packer returns the specified subset, and nothing exactly when the Markdown does not end in its blocks; the next rows say which sections it holds |
| ContextPacking.SelectionMeetsSpec | src/context.rs:248-341 | the page is the prefix and the longest in-order run that fits, both limits hold, and filtered, over-budget, omitted and kept add up to all sections |
| ContextPacking.SentWholeOrPointer | src/context.rs:299-324 | kept sections are accepted and not oversized; pointers stand for oversized accepted ones only |
| ContextPacking.SectionFates | src/context.rs:284-332 | up to the first accepted section without room, those whose prefix and block fit the larger of the two limits and the byte bound are sent whole and the others become pointers; from it on all are over budget |
| ContextPacking.HeldBackWhole | src/context.rs:299-324 | a section that fits the whole hook right after the prefix is never omitted: it is sent whole now, or it and all accepted ones behind it wait |
| ContextPacking.WithoutLimit | src/context.rs:284-298 | without a limit every accepted section is sent |
| HookState.HookRecord.ApplyDelivery | src/hook.rs:812-883 | the bookkeeping steps on the state's fields together equal one update of the state |
| HookState.HookRecord.ResetContextEpoch | src/hook.rs:752-779 | a reset clears the visibility fields and counts the epoch, modulo 2^64 |
| HookState.HookRecord.MarkReceiptsRefreshed | src/hook.rs:655-677 | the cursor only moves up and the debt is cleared on request |
| HookState.DeliveredExact | src/hook.rs:826-883 | for every history the delivered set is strictly sorted and holds exactly what was delivered in the current epoch since the last reset |
| HookState.CursorIsMaximum | src/hook.rs:655-677 | the receipt cursor is the maximum over all refreshes in any order, resets included |
| HookState.DebtExact | src/hook.rs:613-652 | debt is pending exactly when the last marked intent was not cleared since, with its reason; resets do not matter |
| HookState.ResetForgets | src/hook.rs:752-779 | a reset leaves a new session with the next epoch: only debt and receipt cursor remain |
| HookState.OnlySinceReset | src/hook.rs:752-779 | after a reset everything but debt and receipts depends only on the operations since, over all histories before |
| HookState.RecallIdsExact | src/hook.rs:845-877 | the ids that suppress a recall, and the turn ids, are exactly those brought since the last reset by recalls and current deliveries |
| HookState.LastKeyWins | src/hook.rs:680-750 | each selection key, tracked or not, and the time of the last recall, is the last one written since the last reset |
| HookState.StartupIdsExact | src/hook.rs:855-872 | exactly what an untracked session counts as sent after each operation |
| HookState.StaleUpdate | src/hook.rs:826-883 | an update stamped before resets is dropped whole when their number is not a multiple of 2^64, and otherwise does all that a current one does, field by field |
| HookState.StaleTopic | src/hook.rs:785-806 | the same for a recall topic |
| HookProtocol.NoLostUpdate | src/hook.rs:549-576 | with processes that wait, time out, fail or die anywhere, the file holds the mutators of exactly the saved calls in save order; successful calls are among them once, timed-out and failed ones are not |
| HookProtocol.LogOnlyGrows | src/hook.rs:549-576 | over any later schedule the file keeps the mutators committed so far in the same order, followed by those committed since |
| HookProtocol.OneInside | src/hook.rs:513-538 | at most one call is inside the critical section |
| HookProtocol.CursorCoversWorkers | src/hook.rs:655-677 | in every reachable state the cursor is the maximum over saved refresh workers, in any finishing order |
| HookProtocol.DeliveredExactAlways | src/hook.rs:549-576 | in every reachable state the delivered set is what the committed history left visible |
| HookProtocol.NeverStuck | src/hook.rs:549-576 | in every reachable state, once the holder is gone, a call that runs by itself applies its mutator to what the file holds and succeeds |
| HookProtocol.ErrorsLetGo | src/hook.rs:549-576 | in every reachable state a timeout changes nothing, and a failed save leaves the file alone and frees the lock |
| DeliveryDrain.NeverSentTwice | src/hook.rs:126-132 | two different rounds, each with its own limit and time, never send the same id and digest, and nothing delivered before is sent |
| DeliveryDrain.OneRoundDistinct | src/context.rs:284-324 | one round sends no text twice when the undelivered sections have distinct ids and digests, and a round that holds nothing back only then |
| DeliveryDrain.DrainsAll | src/context.rs:217-219 | when every section fits the whole hook, after as many rounds with the whole hook as there are undelivered sections, and any others with less room in between, the text of every section has been delivered |
| DeliveryDrain.Drains | src/context.rs:217-219 | when moreover ids and digests are distinct, those rounds send every undelivered section exactly once, in order |
| ReceiptLog.LogFile.Append | src/hook.rs:916-943 | an append to a log that parses adds its receipt at the end unless the write fails; in every other case it reports failure and leaves the file alone |
| ReceiptLog.AppendExact | src/hook.rs:927-936 | appending keeps every earlier byte and adds exactly one receipt, also after an unterminated last line |
| ReceiptLog.LogStaysExact | src/hook.rs:485-505 | over every interleaving and crash the log holds the earlier receipts and then exactly those of the completed appends, once each |
| ReceiptLog.ReadsExtend | src/hook.rs:950-973 | lock-free readers always parse the file, and each read extends the one before |
| ReceiptLog.CorruptNeverRewritten | src/hook.rs:923-925 | a corrupt log is never rewritten and no append to it succeeds |
| ReceiptLog.NeverStuck | src/hook.rs:916-943 | in every reachable state, once the holder is gone, an append that runs by itself succeeds exactly when the log parses |
| ReceiptLog.ErrorsLetGo | src/hook.rs:916-943 | in every reachable state a failed replacement leaves the file alone and frees the lock |
| PromotionTarget.ValidateTarget | src/curation.rs:402-472 | the loop over path components returns the specified names or the first error |
| PromotionTarget.AcceptedTarget | src/curation.rs:402-472 | an accepted target stays under a collected directory, is in normal form, is Markdown and can be quoted on one line |
| PromotionTarget.AcceptedIff | src/curation.rs:402-472 | a path is accepted exactly when it is relative, names no way up and no character that breaks a quoted line, lies under a collected directory and ends in a Markdown name |
| PromotionTarget.TargetDetermines | src/curation.rs:567-575 | two accepted paths name the same file exactly when their printed targets agree |
| Promotion.EventReadsBack | src/curation.rs:288-301 | the event written for a note and target is recognised for every accepted target |
| Promotion.EventClaimsOnlyItself | src/curation.rs:357-365 | and it claims no other note or target |
| Promotion.AppendMarks | src/curation.rs:383-400 | after an append the marker is found if and only if the file was text; earlier bytes and markers stay |
| Promotion.Store.Promote | src/curation.rs:197-276 | an undisturbed call appends the note's text as one block and records, repairs a missing event, or changes nothing, and leaves the promotion recorded |
| Promotion.AppendAddsText | src/curation.rs:383-391 | what an append adds, after the old bytes and at most a newline, is one block with the trimmed body behind the marker, or one bullet line with exactly the body's words before it |
| Promotion.BlockReadsBack | src/curation.rs:383-391 | a reader of the block's lines finds the body again: word for word in a bullet, verbatim otherwise |
| PromotionProtocol.AppendAtMostOnce | src/curation.rs:197-276 | over every interleaving with crashes between append and event, a text file is its earlier bytes and one block per note |
| PromotionProtocol.AppendAtMostOnceIff | src/curation.rs:393-400 | at most one append per note in all runs if and only if the file starts as UTF-8 |
| PromotionProtocol.OkMeansRecorded | src/curation.rs:197-276 | whatever happens to the file, a successful call leaves a promotion event for its note and target |
| PromotionProtocol.LaterCallsChangeNothing | src/curation.rs:201-209 | once recorded, calls that start later append and record nothing |
| PromotionProtocol.WriteExtends | src/curation.rs:257-266 | no outside edit made before the comparison is lost by the write |
| PromotionProtocol.PromotedTextsArrive | src/curation.rs:197-276 | over every interleaving the file is its first bytes and one block per append, in order, each with its note's own text, and every call that reports a promotion has its block there |
| PromotionProtocol.SuccessMeansText | src/curation.rs:201-251 | also a call that found marker or event means that a block with the note's text is in the file, if nobody else recorded it and no other block quotes its marker |
| PromotionProtocol.SuccessMeansTextIff | src/curation.rs:219-232 | for given requests into a new file success always means that the note was appended if and only if no request's block quotes another note's marker |
| PromotionProtocol.QuotingBody | src/curation.rs:393-400 | such requests exist: a verbatim body that is another note's marker |
| PromotionProtocol.NeverStuck | src/curation.rs:197-276 | in every reachable state, once the holder is gone, a call that runs undivided succeeds: it returns, records or appends and records, as marker and event demand |
| PromotionProtocol.ErrorsLetGo | src/curation.rs:197-276 | in every reachable state a failure before the event leaves file and events alone and frees the lock |
| TemplateExpansion.ExpandVars | src/config.rs:1432-1447 | where rewriting stops, the loop yields its outcome, and a success has no opening left |
| TemplateExpansion.Terminates | src/config.rs:1432-1447 | if some character of the syntax occurs in no value, the loop ends within as many rewrites as the input has of it |
| TemplateExpansion.TerminatesIff | src/config.rs:1432-1460 | the exact alphabets of values for which expansion always ends |
| TemplateExpansion.SelfReference | src/config.rs:1449-1460 | a variable that refers to itself is rewritten forever |
| TemplateExpansion.YieldsUnique | src/config.rs:1432-1447 | an input has at most one outcome |
| TemplateExpansion.MeaningPreserved | src/config.rs:1432-1460 | expanding a printed nested template gives the value of a recursive evaluator |
| NoteFormat.RoundTripIff | src/note.rs:388-436 | parsing a printed note gives it back if and only if the body has no carriage return and the TOML no closing delimiter before an empty line |
| NoteFormat.RoundTripForeign | src/note.rs:400-409 | a printed note parses back after conversion to CRLF or CR line ends |
| NoteFormat.ParsedRoundTrips | src/note.rs:405-419 | whatever parses can be printed again and then parses back |
| NoteFormat.ClosedAtEnd | src/note.rs:434-435 | a delimiter at the very end of the file means an empty body |
| NoteFormat.DirectBodyIff | src/note.rs:427-433 | a body right after the delimiter is kept if and only if no canonical delimiter occurs from there on |
| NoteFormat.CarriageReturnLost | src/note.rs:405-406 | a body with a carriage return is not given back |
| NoteFormat.LeadingNewlineLost | src/note.rs:427-430 | a body right after the delimiter loses a leading newline |
| NoteFormat.DelimiterMovesBody | src/note.rs:427-436 | with a closing delimiter inside the TOML the file no longer parses or its body swallows part of the TOML |
| NoteFormat.ValidIsNormal | src/note.rs:191-195 | valid front matter has no blank timestamp left to fold |
| NoteFormat.ValidIff | src/note.rs:511-562 | the checks find nothing exactly in front matter with the right version and type, all texts present, readable times, an ordered window and an audience where private |
| NoteFormat.ParsedIsValid | src/note.rs:405-419 | a note that parses is valid, and is the TOML between its delimiters but for blank timestamps, which read as absent |
| Retag.Record.Retag | src/memory.rs:305-385 | the two-file rewrite leaves the specified files, an error between the two included |
| Retag.RetagReadsBackIff | src/memory.rs:305-337 | once the note was rewritten it reads back as edited if and only if the edited front matter prints without a closing delimiter |
| Retag.RetagAgreesIff | src/index.rs:1289-1382 | after a successful retag the rebuilt entry is the old one with exactly the requested fields changed, if and only if the note reads back |
| Retag.RetagsReadBackIff | src/memory.rs:305-385 | over any sequence of completed retags the note keeps reading back, with its id and body, if and only if every front matter written prints without a closing delimiter |
| Retag.RetagsAgree | src/memory.rs:305-385 | and then the rebuilt entry is the first one with the requests applied in order |
| Retag.FailedRetagServes | src/memory.rs:342-372 | a retag that fails before the first write changes nothing; one that fails at the event leaves an entry that still follows the event |
| Retag.RequestsKeep | src/memory.rs:347-358 | retags never touch id, audience, body or other fields, kind-only ones keep scope and project, and the last kind wins |
| Retag.RequestMeans | src/memory.rs:312-325 | what each part of a request does to kind, provenance, scope and project, and that it does no more |
| Retag.RefusedIff | src/memory.rs:326-330 | a retag is refused for its kind exactly when it would leave a project fact without project scope or project; then nothing changes |
| Retag.EntryFollowsSources | src/index.rs:1289-1382 | an unpaired entry carries the note's own fields; an event that says the same changes nothing else; an event's fields win but cannot take away what only the note has |
| Retag.EntryIsSound | src/index.rs:1230-1262 | a rebuilt entry names its note's id, has writer, scope and readable times, an audience where private, and an ordered window when one side gives both ends |
| Retag.WindowOutOfOrderIff | src/index.rs:1320-1327 | the window of a paired entry is out of order exactly when the event gives one end and the end taken from the note does not fit it |
| ClassifierRun.PendingExact | src/classify.rs:126-146 | pending are exactly the records without audience and not private whose verdict is missing or an older classifier's, oldest first |
| ClassifierRun.Worker.Run | src/classify.rs:278-374 | the loop ends with the specified report and store; what the run does is stated by the next rows |
| ClassifierRun.RunEnds | src/classify.rs:278-356 | the run ends within two calls a record, and the counters satisfy all their equations and bounds |
| ClassifierRun.TriedTwiceJudgedOnce | src/classify.rs:299-324 | no record is tried more than twice or judged more than once |
| ClassifierRun.AbortedIff | src/classify.rs:312-320 | a run aborts exactly when every backend was rotated out; errors are at least three a rotation and at most three a rotation, two a success and two more |
| ClassifierRun.RotatesAfterThree | src/classify.rs:299-322 | from the outcomes alone: the backend changes after a call exactly when it and the two before failed on one backend, the record exactly after an answer or a second failure; no backend fails four times running; a run aborts exactly at the third failure running of the last backend |
| ClassifierRun.RunWritesVerdicts | src/classify.rs:332-353 | a run changes only files of answered records, and each holds what the one verdict on it made of its first content |
| ClassifierRun.BatchIsOldest | src/classify.rs:260-265 | a batch is the oldest records owed a verdict, up to the limit |
| ClassifierRun.WantedRule | src/classify.rs:324-330 | the kind a record gets is the answer's when it is clear, confident enough and fits scope and project, and its own otherwise |
| ClassifierRun.VerdictSays | src/classify.rs:332-338 | a verdict names backend, time, version and confidence, and that no human gave it |
| ClassifierRun.DryRunCounts | src/classify.rs:340-353 | a dry run writes nothing and counts the same |
| ClassifierRun.ManualVerdictStands | src/classify.rs:376-402 | after a successful manual retag, at any point of a run, nothing the worker does changes the record |
| ClassifierRun.ChangedNoteStands | src/classify.rs:376-391 | a note whose kind or verdict anybody changed after the batch was drawn up is left alone by the rest of the run |
| ClassifierRun.WrittenVerdictSettles | src/classify.rs:332-353 | a written verdict changes the rebuilt entry in its kind, to the wanted one, and its provenance, and in nothing else, which takes the record off the queue, if and only if the note still reads back |
| ClassifierRun.AppliedCountsChanges | src/classify.rs:324-353 | at any point of a run, applied counts exactly the answers that were clear, confident, allowed by scope and project, and named another kind; marked-only counts all other answers |
| Sorting.FilterSort | src/context.rs:912-922 | filtering commutes with stable sorting, on which noninterference rests |
| Sorting.SortDedupCanonical | src/hook.rs:836-846 | sorting and deduplicating gives the strictly increasing sequence of the same elements |
| Text.LinesAppend | src/hook.rs:967-973 | lines of a terminated text followed by more text are the lines of both |
| Text.SplitAtWhite | src/context.rs:846-851 | whitespace separates words; with the next row this fixes what the words of a text are |
| Text.WordsOfJoin | src/curation.rs:389-390 | words joined by single spaces are the words again |

## Left out

- RebuildLock.MutualExclusion: retries and attempts are steps of the machine, not a timed loop; only the Unix inode comparison is modelled, because the other variant always answers yes.
- IndexProtocol.RebuildsLinearize: covers callers that hold the lock, which are all that share a cache directory; the rebuild of an evaluation run uses its own.
- IndexRebuild.HistoryNeverShrinks: removing the cache file is not a step of a run; in IndexProtocol it is one, after which a new history starts, as it does from a damaged or older-schema cache.
- IndexRebuild.ProjectionAgreesIff: for rebuilds that met no unreadable curated file; after one that did, restored entries are sorted in among the others, so only the contents can agree, which ProjectionContentsAgreeIff states.
- IndexFile.Integrity: assumes an injective digest, so it speaks of damage, not of deliberate collisions.
- ContextAssembly.AssembleRefines: covers assembly from the local index, with or without the project filter; the walk over curated files, the canonical-body fallback and alias files read from the store are not modelled.
- ContextAssembly.BoundariesHold: speaks of the blocks, not of the header.
- ContextRules.HeaderReadsBack: for scope and source names without newlines, because the header does not sanitise these lists.
- ContextPacking.SelectSections: offsets are character positions where the source uses byte offsets of the same text.
- DeliveryDrain.DrainsAll: needs every section to fit the whole hook; pointers for sections that do not are sent again every round and can fill the budget.
- DeliveryDrain.Drains: needs distinct ids and digests besides, because a second section with an id and digest already delivered is never sent; DrainsAll covers the general case.
- HookProtocol.NoLostUpdate: the deadline may strike at any time while waiting, so its length plays no role; unreadable state files end a call before it changes anything and are not steps.
- PromotionProtocol.AppendAtMostOnce: one target at a time, because each target has its own file and lock; events for others are arbitrary steps, and the note itself is taken as readable. Edits from outside are excluded there and allowed in the other theorems.
- PromotionProtocol.SuccessMeansText: excludes outside edits and note ids with a newline, and needs a file that was text.
- PromotionTarget.ValidateTarget: paths are UTF-8 strings with Unix separators.
- TemplateExpansion.ExpandVars: requires that rewriting stops, since otherwise the original never returns; an error carries no message.
- TemplateExpansion.MeaningPreserved: for templates whose literals, names and values are free of `$`, `{` and `}`, and names free of `:`; other values are covered by the termination results only.
- Retag.RetagsAgree: for sequences whose written front matters all print without a closing delimiter, which RetagsReadBackIff shows to be exactly those whose note keeps reading back; entities derived from the text and kind are left out of the entry.
- ClassifierRun.ManualVerdictStands: the worker's check and rewrite of one record are one step, and so is a human's retag, whose one edited front matter must print without a closing delimiter.
- ClassifierRun.WrittenVerdictSettles: for a verdict whose two files were both rewritten; FailedRetagServes covers the other case.
- ClassifierRun.RunWritesVerdicts: for batches without two records of one note, and without retags by others during the run; ChangedNoteStands and ManualVerdictStands cover those.
- ClassifierRun.Worker.Run: starts where the worker holds its lock; the freshness stamp, the mode switch, the error text and the mtime-based lock file, whose stale steal gives no exclusion, are not modelled.
- Writing new records and notes with collision retries, the outbox, search, secrets and project discovery: other components.
- Detection of backends, prompts, doctor reports and evaluation: I/O and text heuristics.
- Pruning of inactive hook runs and of temporary index files: deletes advisory data only.
- Waiting for a contended rebuild and serving a stale cache meanwhile: timing.
