# Verified model of the planning, generation and synchronisation core

This project models the parts of the repository whose correctness spans several functions or many runs, and proves what
they promise. `dafny verify dfyconfig.toml` checks all of it. Nothing here runs the original program.

**Episode planning.** A ledger of episodes cuts source texts into ranges. The planner takes a snapshot outside the
project lock, lets a model propose end anchors, resolves them to offsets and commits a batch under the lock; the reset
cuts the ledger back, or empties it whatever state it is in. `Boundaries` is the resolution of anchors; `Ledger` the
ledger as it may stand on disk, damaged or not, and its shared readers; `EpisodeFiles` the names of derived and archived
files; `Tiling` what it means for ranges to tile the sources; `PlanSpec` and `Planner` the snapshot and the commit;
`LedgerInvariant` and `PlanLaws` what a commit does to a tiled ledger; `PlanContents` what a plan call shows the model
and what the episodes it commits say and contain; `PlanGates` what stops a plan call and when it reports the end;
`EpisodeSource` the reader that must agree with the derived files; `CommitFailures` what a commit leaves that the system
stops; `NewSources` what happens when a source file is added; `ResetSpec`, `Reset` and `ResetLaws` the reset; `PlanRuns`
all runs in which plan calls and resets interleave and others only rewrite what rows say besides number and range;
`SharedLedger`, `SharedCommits` and `SharedRuns` all runs in which others also store rows without a range, move and
delete rows, and add source files, with the exact account of what planning then misses (`PassedOver` is such a run). The
planner's writes and the reset's validator are two independent pieces of code that must agree on one invariant:
`Reset.ResolvePartialResetCursor` is proved to accept exactly that invariant, and `PlanRuns.RunsStayTiled` that every run
keeps it.

**Generation worker.** `SlotTable` is the occupancy ledger; `LaneRuns` one video lane while a batch of resumed tasks
goes through it; `TaskRuns` the task rows with their SQL guards under any number of workers, users and crashes; `Worker`
the claim loop, the body of a task, cancelling along dependencies, the recovery of orphans and the preparation of a
batch, which are proved to take only the steps of `TaskRuns`.

**Profile synchronisation.** `ProfileSync` is the decision table between profile, project and manifest; `SyncLaws` what one
sync delivers and what repeated syncs, edits and upgrades promise together.

**Rate limiter.** `RateLimiter` is one pass of each acquire call over a pruned log; `RateRuns` proves the guarantee for
every window of every run with the help of the full history of grants. The asynchronous call gives the lock up while it
sleeps, so any order of passes is a run.

**Arithmetic.** `AspectSize` is exact-ratio sizing under limits; `Durations` and `DurationPlan` share an episode's
seconds by largest remainder and settle on supported durations.

**Character relations.** `Relations` is the graph with its AI refresh and the user's save; `RelationLaws` what any
sequence of both keeps.

Conventions: a digest is the text it is the digest of, so digests are equal exactly when texts are. A method that
changes state is proved against a predicate or function on values, and the laws are about those. A `faulty` or `stuck`
set, a `budget` or a `trouble` stands for operating system errors, and a flag such as `recorded` for an update the
database takes. Source files in one directory have different names (`DistinctRels`).

Where the code and its comments differ, the model follows the code:

- The decision table's comment on a name collision says that the next sync treats the file as the project's own; the
  code finds the same collision again. Both leave everything as it is, so a collision never needs a second sync
  (`SyncLaws.SyncsSettle` says exactly what does).
- The limiter's comment promises the minimum gap after every grant; a grant is forgotten after sixty seconds, so a
  longer gap is not kept (`RateRuns.GapIsKeptIffWithinWindow`).
- The dispatcher's comment names three ways in which a cancelled resume task ends; a task cancelled before its first
  step takes none of them and its slot is never given back: `LaneRuns.OneCancelStrandsTheLane` is such a run, and
  `LaneRuns.NothingLeftBehindIffAllStarted` says that there is no other cause.
- The comment on reconciliation says that a rerun heals a commit the system interrupted. It does so only if the
  interruption came before the file of a new episode was created; otherwise the next plan call takes that file for an
  episode of unknown range and is refused (`CommitFailures.RerunAfterFailure`; `CommitFailures.OneStoppedCommitBlocks`
  is an input), until a reset clears the way (`CommitFailures.ResetUnblocks`).
- The description of a plan call says that `source_exhausted` means all source files have been planned. A source file
  added before the place reached so far passes every gate of a plan call, so the next report is false unless the file is
  blank (`NewSources.ExhaustionIsTrueIffBlank`, `NewSources.CommitExhaustionIsTrueIffBlank`;
  `NewSources.OneAddedSourceIsMissed` is an input). None of its text gets into an episode until a reset goes through
  (`SharedRuns.AddedStaysOut`); a partial reset may refuse, under exactly the condition of `NewSources.ResetAcceptsIff`.
- The check a commit makes of the texts it has read is meant to stop it when sources changed while the model was asked.
  A file added meanwhile is not among them, and a commit may go on behind it (`PassedOver.OneFileIsPassedOver`). That is
  the only way in which a commit skips text (`SharedRuns.PassedWasAdded`), and `SharedRuns.SkippedIffLetGo` says what
  else does: a deleted row, and a file added behind the cursor.

## Model

| member | source | states |
|---|---|---|
| `Boundaries.FoldForMatch` | lib/episode_planner.py:193-209 | the loop builds the length-preserving fold of the text, character by character |
| `Boundaries.FoldIsHalfWidth` | lib/episode_planner.py:169-209 | full-width punctuation folds to the character 0xFEE0 below it, curly quotes to straight ones, the Chinese full stop, the wave dash and whitespace to their plain forms, and every other character stays |
| `Boundaries.FoldIsIdempotent` | lib/episode_planner.py:193-209 | folding twice is folding once |
| `Boundaries.FindAllOverlapping` | lib/episode_planner.py:212-226 | exactly the start positions of all occurrences, overlapping ones included, in increasing order |
| `Boundaries.Locate` | lib/episode_planner.py:255-291 | an anchor is located iff it has one exact occurrence, or none and one folded occurrence of its normalized form; the end uses the length of the form that matched, and a refusal gives a true reason |
| `Boundaries.ResolveBoundaries` | lib/episode_planner.py:229-304 | succeeds iff the drafts have a resolution in the window, and returns it: unique anchors, strictly increasing ends, the last one moved to the window end only over whitespace; a refusal gives the first fault and after it every anchor without one place, in order, each with a true reason |
| `Boundaries.ResolutionIsOrdered` | lib/episode_planner.py:235-239 | a resolution has one end per draft, strictly increasing and inside the window |
| `Boundaries.ResolutionIsUnique` | lib/episode_planner.py:235-247 | window and drafts leave no choice: any two resolutions are equal |
| `EpisodeFiles.CanonicalName` | lib/episode_planner.py:869 | the name an episode is written under is recognised as that episode and as no other; a negative number gives no episode file |
| `EpisodeFiles.PaddedNamesCount` | lib/episode_ledger.py:39 | any digits make the file of the episode they read as, and a zero in front makes another file of the same episode |
| `EpisodeFiles.CanonicalIsPlain` | lib/episode_planner.py:869 | an episode is written under its number without zeros in front |
| `EpisodeFiles.CanonicalNamesDiffer` | lib/episode_planner.py:869 | different episodes are written to different files |
| `EpisodeFiles.FirstAlias` | lib/episode_ledger.py:265-305 | the file that stands for a number is the first by name of all that carry it, however padded |
| `EpisodeFiles.ArchivesAreInvisible` | lib/episode_reset.py:92-95 | an archived copy is neither taken for an episode file nor for a source text, whatever the lower-casing of suffixes |
| `EpisodeFiles.ArchiveCandidatesDiffer` | lib/episode_reset.py:97-105 | the archive names tried for one file are all different |
| `EpisodeFiles.ArchivePath` | lib/episode_reset.py:89-106 | the search ends, and returns the first candidate that is not taken |
| `Ledger.EpisodesWithoutSourceRange` | lib/episode_ledger.py:413-431 | exactly the numbers of readable rows without usable coordinates |
| `Ledger.RegisterOrphanEpisodeEntries` | lib/episode_ledger.py:350-385 | every numbered file without a row gets one, in ascending order, and rows are sorted when all have a number; a ledger that is not a list is returned as it is |
| `Ledger.SortingInOrder` | lib/episode_ledger.py:382-383 | the stable sort by number leaves rows in order as they are |
| `Ledger.SortedInOrder` | lib/episode_ledger.py:382-383 | sorting puts the same rows, each as often as before, in order |
| `Ledger.RegistrationIsComplete` | lib/episode_ledger.py:350-385 | after registration every numbered file has a row and no row is lost, the numbers are those of rows and files, and registering again changes nothing |
| `Ledger.WithOrphansNothingToAdd` | lib/episode_ledger.py:375-380 | registration adds nothing when every numbered file has a row |
| `Ledger.RegistrationIsIdle` | lib/episode_ledger.py:356-360 | registering again is harmless: with no orphans and rows in order the project is unchanged |
| `Ledger.Mismatched` | lib/episode_ledger.py:246-263 | exactly the recorded files whose digest is well-formed and is not the digest of the current text, missing files included |
| `Tiling.ExtendTiling` | lib/episode_planner.py:549-575 | a batch cut at increasing points that goes on where a tiling ends gives a longer tiling |
| `Tiling.TilingPrefix` | lib/episode_reset.py:262-274 | the ranges of the first episodes of a tiling are a tiling |
| `Tiling.CoveredOnce` | lib/episode_planner.py:237-239 | no character lies in two ranges of a tiling |
| `Tiling.CoveredUpTo` | lib/episode_planner.py:456-473 | every non-whitespace character before the end of a tiling lies in one of its ranges |
| `Tiling.FullyCovered` | lib/episode_planner.py:579-581 | when only whitespace is left after a tiling, every non-whitespace character lies in exactly one range |
| `Tiling.PiecesMakeAPrefix` | lib/episode_planner.py:873-877 | the pieces of each source, cut out and joined in order, are a prefix of its text |
| `Planner.ProjectStore.Snapshot` | lib/episode_planner.py:430-484 | registration, range gate, fingerprint gate, start, skipping of blank rests and files, and the window, in that order, with the errors of each step; a negative start slices from the end |
| `Planner.ProjectStore.Commit` | lib/episode_planner.py:522-583 | checks in the order of the code; then all of ledger, cursor, fingerprints and derived files, or nothing; only when the system stops it do exactly the files written so far stay, with the ledger as it was |
| `Planner.ProjectStore.BackfillFingerprints` | lib/episode_planner.py:781-805 | the fingerprints of all current texts are recorded iff the snapshot had none and neither a recorded nor a read text has changed |
| `Planner.FindEffectiveStart` | lib/episode_planner.py:673-718 | the further of the last anchored end (highest number, first row on ties) and the stored cursor, in source order |
| `Planner.LookAhead` | lib/episode_planner.py:446-484 | the loop finds the first place with text left to plan, file after file, or that there is none |
| `Planner.FirstUnplanned` | lib/episode_planner.py:456-473 | the loop over the files ends at the first of them with something other than whitespace left, or when the files run out |
| `Planner.AppendBatch` | lib/episode_planner.py:545-573 | one row per draft, numbered on from the highest positive number, ranges end to end, stale where products exist |
| `Planner.KeptRows` | lib/episode_planner.py:545-548 | null rows go, everything else stays, and the highest positive number is found |
| `Planner.DraftRows` | lib/episode_planner.py:549-572 | row i runs from the previous end to its own; the stale numbers are exactly those with products on disk |
| `Planner.Reconcile` | lib/episode_planner.py:816-889 | every row is checked before any file is written; then each numbered row is written out in order, and the residue goes; a write that fails leaves exactly the ones before it and the beginning of its own |
| `Planner.PlanWrites` | lib/episode_planner.py:833-873 | there is a plan iff every numbered row has a usable, readable, in-bounds range, and it holds the texts of these rows in order |
| `Planner.Sweep` | lib/episode_planner.py:876-889 | of every number outside the ledger the first file by name goes, and the leftover text, apart from what cannot be removed; nothing else does |
| `Planner.WriteOut` | lib/episode_planner.py:873-875 | all writes are done in order, or those before the one that fails and perhaps the beginning of that one |
| `LedgerInvariant.TiledStart` | lib/episode_planner.py:673-718 | on a planner-made ledger planning goes on exactly at the end of the last episode, or at the top of the first source |
| `LedgerInvariant.LastAnchoredIsHighest` | lib/episode_planner.py:673-696 | the anchored row that counts is one of those with the highest number, and there is none only if no row is anchored |
| `LedgerInvariant.FurtherIsLater` | lib/episode_planner.py:697-710 | of the last end and the cursor the one further on in the sources wins, and a place outside the sources yields |
| `LedgerInvariant.NewNumbersAreFree` | lib/episode_planner.py:545-551 | on any ledger, however damaged, a batch takes no number that is in use |
| `PlanSpec.WindowEnd` | lib/episode_planner.py:478-484 | the window lies inside the text, and whatever it leaves is more than a fifth of a window |
| `LedgerInvariant.TiledRegistration` | lib/episode_ledger.py:350-385 | on a planner-made ledger the range gate passes only if registration changed nothing and no file is orphaned |
| `LedgerInvariant.SortKeepsRows` | lib/episode_ledger.py:382-383 | sorting rows by number loses and invents none |
| `LedgerInvariant.SkipReaches` | lib/episode_planner.py:456-473 | the place found by skipping is reached over whitespace only, and finding none means only whitespace is left |
| `LedgerInvariant.SnapContinues` | lib/episode_planner.py:446-484 | a snapshot that still fits the ledger cuts from where the tiling ends, inside the text, with something left to plan |
| `PlanContents.WindowIsText` | lib/episode_planner.py:478-484 | for every snapshot, the window is the text of its file from its start on: all that is left when that is at most 1.2 windows, one window otherwise; final iff it reaches the end; a negative start counts from the end |
| `PlanContents.EpisodesFollowDrafts` | lib/episode_planner.py:549-575 | after every successful commit onto a planner-made ledger, row by row: the number after the one before, the title and hook of its draft, stale iff reported, and the source text up to its end ends with the draft's anchor, exactly or up to the fold of its normal form, the last one up to whitespace when the window reaches the end of the file |
| `PlanContents.StaleIffProduced` | lib/episode_planner.py:556-561 | a commit reports a new number as stale iff a script or a step1 draft for it was already there |
| `PlanGates.EditedSourceIsRefused` | lib/episode_planner.py:534-544 | when any candidate source was edited or removed while the model was asked, the commit is refused, whatever ledger it finds and whether or not anything is planned from that file |
| `PlanGates.OutdatedIsRefused` | lib/episode_planner.py:759-779 | with a recorded text that is not the present one, no plan call goes ahead, no commit goes through and only a full reset is accepted |
| `PlanGates.ChangeAfterCommitIsNoticed` | lib/episode_planner.py:577-578 | once a commit has gone through, the next plan call notices an edit or removal of any candidate source, planned or not |
| `PlanGates.CommitRefusedIff` | lib/episode_planner.py:522-544 | when exactly a commit onto a planner-made ledger is refused, and with which reason: a file no episode owns, no sources, planning stands elsewhere by now, a text that was read has changed |
| `PlanGates.OutlookReportsEndIff` | lib/episode_planner.py:456-465 | a plan call reports the end of the sources iff only whitespace is left from where planning stands |
| `PlanGates.CommitReportsEndIff` | lib/episode_planner.py:579-581 | a commit reports the end iff its batch leaves only whitespace of the last source file and its window reached the end of it |
| `PlanGates.RegistrationAddsOrphans` | lib/episode_ledger.py:350-385 | registration adds exactly one row without a range for each numbered file without a row, and it is consumed iff a script or a step1 draft exists |
| `PlanGates.NegativeCursorIsIgnored` | lib/episode_planner.py:697-710 | a stored cursor with a negative offset counts for nothing |
| `PlanLaws.CommitKeepsTiling` | lib/episode_planner.py:522-583 | whatever has happened since the snapshot, a commit onto a tiled ledger is refused or extends the tiling by exactly its batch, with cursor, fingerprints and every derived file to match; it cannot fail after its checks |
| `PlanLaws.CommitIsAtomic` | lib/episode_planner.py:530-544 | the optimistic checks suffice: a snapshot taken at the moment of a successful commit would have been the one it used |
| `PlanLaws.UndisturbedCommitSucceeds` | lib/episode_planner.py:522-583 | a plan call that nothing comes in between of is never refused at its commit |
| `PlanLaws.CommitAdvances` | lib/episode_planner.py:572-581 | every successful commit moves the place where planning continues strictly forward in reading order |
| `PlanLaws.WrittenInSync` | lib/episode_planner.py:833-877 | writing out a numbered, in-bounds ledger succeeds and puts each episode's exact text under its canonical name |
| `PlanLaws.SweptStaysInSync` | lib/episode_planner.py:876-889 | removing residue and the leftover text leaves every ledger episode's file as written |
| `EpisodeSource.ReadersAgree` | lib/episode_source.py:55-72 | after a commit the ledger reader and the derived file of an episode give the same text, and the reader gives none exactly when that text is blank |
| `EpisodeSource.LedgerSourceIff` | lib/episode_source.py:43-72 | on any ledger, however damaged: the ledger gives an episode the text of the stretch its first row names, if that is readable, in bounds and not blank, and nothing otherwise |
| `EpisodeSource.DerivedFilesMakeAPrefix` | lib/episode_planner.py:869-877 | the derived files of each source's episodes, joined, are a prefix of that source |
| `EpisodeSource.ExhaustedOutlook` | lib/episode_planner.py:456-466 | when a plan call finds nothing left, every non-whitespace source character lies in exactly one episode |
| `EpisodeSource.ExhaustedCommit` | lib/episode_planner.py:579-581 | when a commit reports the sources exhausted, every non-whitespace source character lies in exactly one episode |
| `CommitFailures.RerunAfterFailure` | lib/episode_planner.py:820-827 | after a commit stopped by the system the next plan call is refused for want of a range iff the file of a new episode had been created; otherwise it finds what it would have found before |
| `CommitFailures.FailedCommitFiles` | lib/episode_planner.py:872-875 | on a planner-made ledger a stopped commit leaves a numbered file without a row iff it got as far as the first new episode |
| `CommitFailures.StoppedNumbers` | lib/episode_planner.py:872-889 | exactly the numbers before the failing write, and its own if it had begun, have files afterwards |
| `CommitFailures.StoppedContents` | lib/episode_planner.py:873-875 | a commit stopped while it writes an episode has left the exact text of every episode before it and at most a beginning of that one |
| `CommitFailures.StoppedElsewhere` | lib/episode_planner.py:873-875 | and every file under another name is as it was |
| `CommitFailures.CommitLeavesNoOrphans` | lib/episode_planner.py:872-889 | after a commit that goes through every numbered file belongs to an episode |
| `CommitFailures.ResetUnblocks` | lib/episode_reset.py:463-475 | whatever a stopped commit left, any reset that goes through leaves no file without a row, and the next plan call passes the range gate |
| `CommitFailures.OneStoppedCommitBlocks` | lib/episode_planner.py:820-827 | an input that shows it: an empty ledger, one source, a batch of one episode and a disk that fills up as its file is created; every next plan call is refused, and there is one |
| `NewSources.TilingSurvivesIff` | lib/episode_ledger.py:246-263 | when a source file is added, the episodes still tile the sources iff it is blank or comes after the last of them |
| `NewSources.NewSourceIsPassedOver` | lib/episode_planner.py:758-770 | no gate of a plan call notices an added file, and one that comes before the last episode's is never cut from |
| `NewSources.ExhaustionIsTrueIffBlank` | lib/episode_planner.py:456-466 | when a plan call then reports that everything is planned, every non-whitespace character lies in one episode iff the added file is blank |
| `NewSources.CommitExhaustionIsTrueIffBlank` | lib/episode_planner.py:579-581 | when a commit whose snapshot is older than the file reports it, the same: true iff the added file is blank |
| `NewSources.OneAddedSourceIsMissed` | lib/episode_planner.py:456-466 | an input that shows it: everything is planned, a file that sorts first is added, and whatever its window the next plan call, of which there is one, reports that everything is planned |
| `NewSources.ResetAcceptsIff` | lib/episode_reset.py:249-408 | a partial reset is refused iff the added file lies before the end of what it would keep and is not blank |
| `ResetSpec.RangesAreUnique` | lib/episode_reset.py:280-293 | a clean ledger has at most one list of ranges for episodes 1..n |
| `Reset.ResolvePartialResetCursor` | lib/episode_reset.py:249-408 | accepts iff the rows are objects with distinct positive numbers, `from` and all of 1..from-1 are there, recorded fingerprints match, and the ranges of 1..from-1 tile the sources; returns the end of episode from-1, and every refusal gives a true reason |
| `Reset.IndexRows` | lib/episode_reset.py:280-293 | succeeds iff every row has a positive number of its own, and finds each row under it |
| `Reset.FirstGap` | lib/episode_reset.py:299-306 | the first missing number below `from`, or `from`, without walking through 1..from |
| `Reset.FollowRanges` | lib/episode_reset.py:329-408 | accepts iff all of 1..from-1 have coordinates that tile the sources; a refusal names a true fault |
| `Reset.NoFaultIffTiling` | lib/episode_reset.py:341-400 | the validator's rule for one more range is exactly what a tiling demands |
| `Reset.Scan` | lib/episode_reset.py:122-201 | the numbers, the consumed episodes and the files in scope; a file is to be deleted iff every row of its number has coordinates and there is one, and archived otherwise |
| `Reset.GroupRows` | lib/episode_reset.py:132-151 | rows grouped by number, duplicates in order, and the numbers some row marks consumed |
| `Reset.Judge` | lib/episode_reset.py:176-199 | one number: consumed by ledger, by products or by files; recreatable only if all its rows agree; all padded aliases found |
| `Reset.ApplyFiles` | lib/episode_reset.py:204-242 | goes through iff no operation fails; otherwise exactly the first operations have been done; archived files get free names of their own and nothing else changes |
| `Reset.DeleteFiles` | lib/episode_reset.py:222-227 | exactly the first files of the plan are deleted, all of them iff none fails |
| `Reset.ArchiveFiles` | lib/episode_reset.py:228-234 | exactly the first files of the plan are set aside, each under a free name that is no episode file, all of them iff none fails |
| `Reset.PrepareReset` | lib/episode_reset.py:433-450 | asks for confirmation iff consumed episodes are affected and it was not given; accepts iff the reset is allowed; writes nothing, and a refusal gives a true reason |
| `Reset.CommitReset` | lib/episode_reset.py:455-484 | everything is checked again; the ledger changes only when every file operation and its own saving went through; a refusal has no effect and gives a true reason, and an interruption exactly that of the operations before it |
| `Reset.ResetLedger` | lib/episode_reset.py:463-475 | the rows before `from`, sorted, with the cursor at the end of the last, or an empty ledger |
| `ResetLaws.FullResetClears` | lib/episode_reset.py:6-20 | from any ledger a full reset leaves an empty one, no numbered file, nothing to register, and gates that pass |
| `ResetLaws.ConsumedIffBuiltOn` | lib/episode_ledger.py:334-347 | an episode counts as consumed iff its status says so, products of its number exist, a row of it names an existing script, or, with a row or a file of its own, its canonical script or a step1 draft exists |
| `ResetLaws.BuiltOnAsksFirst` | lib/episode_reset.py:176-185 | a reset goes through without asking iff every episode in scope that something has been built on was confirmed; otherwise nothing is reset |
| `ResetLaws.ResetDirectory` | lib/episode_reset.py:186-240 | the directory after a reset that went through, file by file: nothing out of scope changes, the leftover text is gone, and of the numbered files in scope exactly those with no row or a row without coordinates are still there, each under a new name that is no episode file |
| `ResetLaws.NoFilesInScope` | lib/episode_reset.py:172-199 | after a reset no numbered file in its scope is left, whatever its padding, and none has appeared |
| `ResetLaws.RerunCompletes` | lib/episode_reset.py:207-209 | however often a full reset is cut short, the one that goes through leaves an empty ledger and no derived file, and every content that cannot be made again is still there |
| `ResetLaws.ResetKeepsContents` | lib/episode_reset.py:195-199 | a file outside the scope or without coordinates for all rows keeps its content, in place or under an archive name of its own |
| `ResetLaws.InterruptionKeepsContents` | lib/episode_reset.py:221-242 | the same holds at every point where a reset may stop |
| `ResetLaws.TiledCanBeKept` | lib/episode_reset.py:249-274 | the validator accepts every planner-made ledger, for every episode after the first |
| `ResetLaws.ResetKeepsTiling` | lib/episode_reset.py:459-475 | a reset of a planner-made ledger keeps exactly the episodes before `from`, still tiled, and planning goes on at the end of the last of them |
| `ResetLaws.ResetUndoesCommit` | lib/episode_reset.py:463-475 | resetting at the first number of a batch just committed onto a non-empty ledger restores the project exactly |
| `ResetLaws.ResetStaysInSync` | lib/episode_reset.py:22-24 | derived files and ledger still agree after a reset, and no file is orphaned |
| `PlanRuns.RunsStayTiled` | lib/episode_planner.py:413-594 | in every run from an empty ledger, with plan calls, stopped commits, resets, failed resets, annotations and file changes interleaved, episodes are 1..n and tile the sources, and the cursor is the end of n |
| `PlanRuns.EveryResetIsAccepted` | lib/episode_reset.py:249-408 | at every moment of every run a reset from k is accepted iff k is 1 or an episode after the first |
| `PlanRuns.PlanningNeverSticks` | lib/episode_planner.py:430-474 | at every moment of every run a plan call fails only for lack of sources or because of files no episode owns |
| `PlanRuns.CommitsAreAtomic` | lib/episode_planner.py:519-583 | in every run a successful commit equals one whose snapshot is taken at that moment, appends rows and moves on |
| `PlanRuns.RunsStayConsistent` | lib/episode_planner.py:519-583 | from any successful commit on, through plan calls, commits, resets and annotations, every episode has exactly its text in its file and no numbered file is without an episode |
| `PlanRuns.NothingIsLostInRuns` | lib/episode_source.py:55-72 | at all these moments the derived files of each source, joined, are a prefix of it, ledger reader and file agree on every episode, and no plan call is refused for want of a range |
| `PlanRuns.ExhaustionIsTrue` | lib/episode_planner.py:579-581 | when a commit in a run reports the sources exhausted, every non-whitespace character of them lies in exactly one stored episode |
| `PlanRuns.FailedCommitsMayBlock` | lib/episode_planner.py:820-827 | in every run a plan call right after a stopped commit is refused for want of a range iff the commit had created the file of a new episode |
| `SharedLedger.TakenOnce` | lib/episode_planner.py:549-575 | on a ledger others write to as well, no character is in two episodes |
| `SharedLedger.StartIsCursor` | lib/episode_planner.py:673-718 | on such a ledger planning goes on exactly at the cursor, or at the top of the first source when there is none |
| `SharedLedger.GateIff` | lib/episode_ledger.py:413-431 | the range gate opens iff every row has a range and every numbered file a row; registration has then only put the rows in order |
| `SharedCommits.CommitStaysOrderly` | lib/episode_planner.py:519-583 | on such a ledger a commit is refused, never for a bad range, or adds exactly its batch under free numbers, from where planning stood or behind files its snapshot has not seen, and the order is kept |
| `SharedCommits.SharedEpisodesFollowDrafts` | lib/episode_planner.py:549-575 | with others writing to the ledger: a successful commit has a row for each draft under consecutive numbers, with its title, hook, status and an end where its anchor stands in the source |
| `SharedRuns.ResetSkipsNothing` | lib/episode_reset.py:249-408 | after a reset that goes through, every character before the cursor that is not whitespace is in an episode |
| `SharedRuns.RunsStayOrderly` | lib/episode_planner.py:413-594 | in every run in which others store, edit, move and delete rows and files are added between plan calls, commits and resets, no two rows share a number, ranges follow each other in the order of the numbers without overlap, and all of them end at or before the cursor |
| `SharedRuns.PlanningStopsIff` | lib/episode_planner.py:430-474 | in every such run a plan call lacks a range iff some row has none or some numbered file has no row; otherwise it fails iff there is no source; what it leaves out when it finds nothing left has been skipped |
| `SharedRuns.StepSkips` | lib/episode_planner.py:413-594 | one step skips exactly what it lets go besides what was skipped before: a deleted row its text, an added file behind the cursor its own, a commit what lies between start and batch; a reset that goes through skips nothing |
| `SharedRuns.SkippedIffLetGo` | lib/episode_planner.py:413-594 | in every such run a character before the cursor is in no episode iff some step has let it go and no reset has gone through since |
| `SharedRuns.AddedStaysOut` | lib/episode_planner.py:758-770 | none of the text of a file added behind the cursor gets into an episode until a reset goes through |
| `SharedRuns.PassedWasAdded` | lib/episode_planner.py:530-544 | a commit goes on behind text of a file only if the file was added while its plan call was in flight |
| `SharedRuns.ExhaustedOutlookIff` | lib/episode_planner.py:456-466 | when a plan call in such a run finds nothing left, every non-whitespace character is in an episode iff nothing was let go since the last reset |
| `SharedRuns.ExhaustedCommitIff` | lib/episode_planner.py:579-581 | the same when a commit reports it |
| `PassedOver.OneFileIsPassedOver` | lib/episode_planner.py:530-544 | a run that shows it: a file added while a plan call is in flight sorts before the one it cut from; the commit goes through, reports that everything is planned, and the file is in no episode |
| `SlotTable.Table.Register` | lib/generation_worker.py:418-428 | the lane gains or replaces the occupant; other lanes and the absence of empty buckets stay |
| `SlotTable.Table.Promote` | lib/generation_worker.py:430-441 | only the phase of the one occupant changes, and only if it is there |
| `SlotTable.Table.Release` | lib/generation_worker.py:443-450 | the occupant goes, whatever its phase, and an emptied bucket with it |
| `SlotTable.Table.HasRoom` | lib/generation_worker.py:452-457 | true iff the capacity is positive and exceeds the occupants, waiting ones included |
| `SlotTable.Table.OccupiedProviders` | lib/generation_worker.py:464-466 | exactly the providers with at least one occupant in the medium |
| `SlotTable.Table.DrainFinished` | lib/generation_worker.py:495-505 | exactly the occupants in flight and done leave and are returned; waiting ones stay; no empty bucket is left |
| `SlotTable.Table.FindByTask` | lib/generation_worker.py:487-493 | finds a body of the task iff some lane holds it |
| `SlotTable.Table.ActiveTaskIds` | lib/generation_worker.py:507-509 | exactly the ids of all occupants |
| `SlotTable.Occupancy` | lib/generation_worker.py:468-485 | the occupants of a lane are those in flight and those waiting, counted once each |
| `SlotTable.SameBucketsSameTable` | lib/generation_worker.py:410-412 | tables without empty buckets that hold the same in every lane are equal |
| `LaneRuns.NeverOverCapacity` | lib/generation_worker.py:1428-1470 | in every interleaving of acquire, promote, release, drain, cancellation and claims, at most capacity tasks are in flight beyond those running before the batch; in an empty lane at most the capacity |
| `LaneRuns.WithinCapacityIffEmpty` | lib/generation_worker.py:1416-1418 | for a batch as large as the capacity, the bound holds in every run iff the lane was empty |
| `LaneRuns.OccupiedLaneOverflows` | lib/generation_worker.py:1430-1441 | with anything in the lane there is a run in which capacity more are in flight |
| `LaneRuns.WaitingOrLeftBehind` | lib/generation_worker.py:1428-1470 | at every moment of every run the waiting slots are those of bodies still to get their turn and those of bodies cancelled before their first step, and no slot is both |
| `LaneRuns.NothingLeftBehindIffAllStarted` | lib/generation_worker.py:1447-1462 | a run leaves no slot behind iff no body of it was cancelled before its first step |
| `LaneRuns.LeftBehindForGood` | lib/generation_worker.py:495-505 | a slot left behind is still there in every continuation, and takes room |
| `LaneRuns.LeftBehindStarves` | lib/generation_worker.py:452-457 | once as many bodies as the capacity were cancelled before their first step, no task is ever claimed in the lane |
| `LaneRuns.OneCancelStrandsTheLane` | lib/generation_worker.py:1447-1462 | the input: capacity 1 and one task cancelled before its first step; its slot is left behind, and in every continuation it stays and nothing is claimed |
| `LaneRuns.StepIsSound` | lib/generation_worker.py:849-890 | each step keeps the balance of permits, holders and occupants |
| `TaskRuns.EnteredAtMostOnce` | lib/generation_worker.py:806-941 | in every run of claims, deferrals, cancels, crashes, refused updates, takeovers and recoveries, no two steps enter execute_generation_task for one task |
| `TaskRuns.OneClaimIsEntered` | lib/generation_worker.py:929-941 | of all the claims of a task at most one is entered; every other one was put back |
| `TaskRuns.EnteredStaysOut` | lib/generation_worker.py:929-941 | a task whose execution has been entered is never queued again |
| `TaskRuns.SettledIsTerminal` | lib/generation_worker.py:1026-1053 | once a body has written its outcome, the zero-rows protocol included, the task is in a terminal state |
| `TaskRuns.RowsAreMonotone` | lib/db/repositories/task_repo.py:676-819 | terminal states are final, and a task whose cancellation was requested while running can only end cancelled |
| `TaskRuns.StepIsSound` | lib/db/repositories/task_repo.py:365-521 | every guarded update keeps: two claims of a task, one of them was put back; a queued task has only claims that were put back |
| `TaskRuns.ReachingIsSound` | lib/generation_worker.py:806-941 | whatever code takes only these steps keeps the same |
| `Worker.GenerationWorker.PoolFullProviders` | lib/generation_worker.py:780-804 | blocked iff the lane is supported and its breaker is open or its occupants fill the effective capacity |
| `Worker.GenerationWorker.ClaimNext` | lib/db/repositories/task_repo.py:365-440 | the oldest queued task of the medium that is not blocked and whose dependency, if any, has succeeded becomes running, or there is none |
| `Worker.GenerationWorker.ClaimLane` | lib/generation_worker.py:806-892 | takes only steps of the task machine; every task it claims is registered in its lane, failed as unsupported, or queued again (and, once its provider is refreshed, out of the next query); no lane is filled past its effective capacity; only tasks claimable at the beginning are claimed, and none before an older one that still is; when it ends without putting a task back, no task of the medium is claimable any more under any blacklist the lanes give |
| `Worker.GenerationWorker.RouteClaimed` | lib/generation_worker.py:829-890 | one claimed task: failed, put back or dispatched, by capacity, breaker and room |
| `Worker.GenerationWorker.DeferClaimed` | lib/generation_worker.py:894-941 | back to queued if still running, with its provider brought up to date; either update may be refused without affecting the other |
| `Worker.GenerationWorker.ProcessTask` | lib/generation_worker.py:1000-1053 | the body enters the execution iff its assets pass the check; it writes its outcome or concedes to a cancellation and leaves the row terminal, unless the database refuses an update, which leaves the row exactly as it was |
| `Worker.GenerationWorker.WriteOutcome` | lib/generation_worker.py:1019-1053 | the zero-rows protocol: the outcome if the row was running, cancelled if it was taken away, nothing if an update is refused |
| `Worker.GenerationWorker.CancelTask` | lib/db/repositories/task_repo.py:650-845 | a queued task is cancelled, a running one asked to stop and signalled; and so is exactly every task reached from it along dependencies through queued tasks; all others are left alone |
| `Worker.ChainsAreFollowed` | lib/db/repositories/task_repo.py:738-845 | a cascade that leaves no ended task with a dependent that could still be stopped has reached everything below its root |
| `Worker.GenerationWorker.ScanOrphans` | lib/generation_worker.py:1222-1367 | own tasks are left alone, cancelling orphans end cancelled, running ones are failed unless they are videos with a job whose provider, the persisted one if any, can resume; exactly these are listed, each under that provider |
| `Worker.Judgement` | lib/generation_worker.py:1262-1340 | what recovery decides: own tasks are left alone; a cancelling orphan is cancelled; a running one is listed, under the persisted provider if any, iff it is a video with a job whose provider can resume, and failed otherwise |
| `Worker.GenerationWorker.FailOrConcede` | lib/generation_worker.py:1280-1285 | failed if running, otherwise cancelled unless already terminal |
| `Worker.GenerationWorker.LineUp` | lib/generation_worker.py:1394-1470 | without capacity, even after loading the limits again, the batch is failed; otherwise all of it waits in the lane before any of it runs, or none when the worker is stopping |
| `Worker.LinedUpIsStart` | lib/generation_worker.py:1411-1413 | lining up in a lane where nothing waits is the start of the runs with the known bound |
| `Worker.DispatchIsProgress` | lib/generation_worker.py:878-890 | registering a claimed task keeps what the claim loop promises |
| `ProfileSync.ResolveForMode` | lib/profile_manifest.py:126-176 | succeeds iff every logical file is common or has a variant for each mode and not both; maps each to its file for the mode |
| `ProfileSync.LogicalFilesAreShared` | lib/profile_manifest.py:166-176 | the logical files do not depend on the mode, and common ones map to the same file |
| `ProfileSync.ProjectDir.ApplyDecision` | lib/profile_manifest.py:540-653 | the match of the code does to file and manifest what the decision table says, and touches no other path |
| `ProfileSync.ProjectDir.SyncPaths` | lib/profile_manifest.py:696-722 | whatever the order of paths, each ends as the table says for what it was before, and faulty paths are left alone |
| `ProfileSync.ProjectDir.Sync` | lib/profile_manifest.py:659-727 | a bad profile is refused before anything is touched; an unusable manifest or another mode rebuilds everything, otherwise every path is decided |
| `ProfileSync.ProjectDir.FullReset` | lib/profile_manifest.py:485-534 | exactly what the profile ships, apart from paths that failed, with a manifest that says so |
| `ProfileSync.ProjectDir.ForceResync` | lib/profile_manifest.py:730-788 | a bad profile or path is refused before anything is touched; the chosen paths the profile ships are overwritten and recorded, tombstones included, and no others; without a manifest and paths everything is rebuilt |
| `SyncLaws.DecisionsSettle` | lib/profile_manifest.py:573-653 | the table applied twice to its own result changes no file, and the manifest once more only after a restored file that equals the profile's |
| `SyncLaws.SyncDelivers` | lib/profile_manifest.py:573-653 | a sync that need not rebuild brings every file that is as delivered, or new, to what the profile ships now, be it nothing, and leaves every other file alone; the manifest records what is as shipped, buries what it knew and is gone, and gives up what the user has made again or the profile no longer has |
| `SyncLaws.UpgradesArrive` | lib/profile_manifest.py:589-594 | in every run, a file the user leaves alone is after every sync what that sync ships |
| `SyncLaws.EachModeGetsItsOwn` | lib/profile_manifest.py:147-176 | what is shipped for a mode is the common files and its own variants, with their contents, and nothing else |
| `SyncLaws.SyncsSettle` | lib/profile_manifest.py:659-727 | with nothing changing outside, one sync settles the files and two the manifest, and the second changes something iff a tombstoned file had come back with the profile's content |
| `SyncLaws.NothingOfTheUsersIsLost` | lib/profile_manifest.py:540-653 | from any project whose manifest records only what was shipped, over all syncs, modes, restores, edits and losses of the manifest: a version that a sync overwrites or deletes without having to rebuild was once shipped under that path |
| `SyncLaws.DeletionsAreRemembered` | lib/profile_manifest.py:579-637 | a tombstoned, absent file stays so over all syncs, upgrades and edits until the user makes it again or asks for it, the manifest is lost, or another mode has everything rebuilt |
| `SyncLaws.DeliveredThenDeleted` | lib/profile_manifest.py:579-583 | a delivered file the user deletes is tombstoned by the next sync that gets to it and is not recreated |
| `RateLimiter.Limiter.TrySync` | lib/gemini_shared.py:105-133 | one pass of the loop: prune, gap, room or wait; models without a positive limit are not limited |
| `RateLimiter.Limiter.TryAsync` | lib/gemini_shared.py:146-181 | one pass under the lock with a single reading and the longer of both waits |
| `RateLimiter.Limiter.Acquire` | lib/gemini_shared.py:88-133 | passes follow each other until one grants |
| `RateLimiter.Limiter.Prune` | lib/gemini_shared.py:108-110 | the loop drops exactly the leading timestamps more than a window old |
| `RateRuns.NoWindowOverflows` | lib/gemini_shared.py:108-127 | in every run mixing both calls, every closed sixty-second window has at most `limit` grants |
| `RateRuns.GapIsKeptIffWithinWindow` | lib/gemini_shared.py:112-122 | consecutive grants are at least the gap apart in every run iff the gap is at most sixty seconds |
| `RateRuns.StepIsSound` | lib/gemini_shared.py:108-127 | what a pass forgets is more than a window old, so the log always shows enough |
| `RateRuns.SleepingIsEnough` | lib/gemini_shared.py:159-175 | after sleeping as long as it was told, an undisturbed asynchronous caller is granted the request |
| `RateRuns.TwoSleepsAreEnough` | lib/gemini_shared.py:105-133 | an undisturbed synchronous caller that sleeps as it is told is granted the request after at most two sleeps, one for the gap and one for room |
| `RateRuns.GrantedIffRoom` | lib/gemini_shared.py:108-133 | in every run, a pass grants iff fewer than `limit` grants lie in the sixty seconds before it and the last of those is at least the gap ago |
| `RateRuns.WaitIsNeeded` | lib/gemini_shared.py:159-175 | with a gap of at most the window, an asynchronous caller that wakes more than the 0.1 seconds of slack early is turned away again |
| `RateRuns.SyncWaitIsNeeded` | lib/gemini_shared.py:112-133 | with a gap of at most the window, a synchronous caller that wakes before the gap is over, or more than the 0.1 seconds of slack before there is room, is turned away again |
| `AspectSize.ParsedIsReduced` | lib/aspect_size.py:43-56 | whatever the text, the parsed ratio is positive and in lowest terms, and 9:16 when it cannot be read |
| `AspectSize.ReducedIsReduced` | lib/aspect_size.py:48-56 | two positive integers are reduced to lowest terms of the same ratio |
| `AspectSize.WrittenRatioIsRead` | lib/aspect_size.py:38-51 | two positive numbers written with an ASCII or full-width colon between them are read back as the same ratio |
| `AspectSize.NegativeGrid` | lib/aspect_size.py:87-112 | there is a size iff the grid step is not 0 and the pixel limit not negative, and it is legal iff the grid step is positive |
| `AspectSize.LegalSizesAreMultiples` | lib/aspect_size.py:70-73 | sizes with exactly the ratio and both sides divisible by the grid are exactly the multiples that are searched |
| `AspectSize.FitsIffWithin` | lib/aspect_size.py:99-109 | a multiple fits both limits iff it is at most the quotient for the long side and the root for the pixels |
| `AspectSize.SizeIsOptimal` | lib/aspect_size.py:59-112 | for a positive grid step: exact ratio and grid; if the smallest such size fits, the result fits and has the short side nearest to the request among all that do, of two equally near ones the even multiple; otherwise it is the smallest |
| `AspectSize.RoundHalfEven` | lib/aspect_size.py:97 | the rounded quotient is off by at most half |
| `AspectSize.Isqrt` | lib/aspect_size.py:108 | the largest integer whose square does not exceed the number |
| `Durations.Allocate` | lib/episode_duration_plan.py:333-346 | floors, a ranking by remainder and one more second for the first of it give the shares by largest remainder |
| `Durations.RankByRemainder` | lib/episode_duration_plan.py:339-343 | all shots, larger remainders first and earlier shots first among equals |
| `Durations.SharesAddUp` | lib/episode_duration_plan.py:336-346 | the shares of at least one shot add up to exactly the seconds that were to be shared |
| `Durations.SharesAreFair` | lib/episode_duration_plan.py:336-346 | each share is the floor of its quota or one more, and whoever gets the extra second has the larger remainder or stands earlier |
| `Durations.LeftoversAreFew` | lib/episode_duration_plan.py:337 | there are at least none and fewer extra seconds than shots |
| `Durations.ClampIsNearest` | lib/episode_duration_plan.py:386-397 | the request is the closest supported duration, the smaller on ties, and the reason says truly why it differs |
| `DurationPlan.PlanMeetsTarget` | lib/episode_duration_plan.py:227-259 | with an adjustable shot, equal and proportional plans plus the fixed durations make exactly the target |
| `DurationPlan.PlanIsFair` | lib/episode_duration_plan.py:333-346 | equal or by weight, every adjustable shot gets the whole seconds of its own quota or one more, and who gets one more has the larger remainder, or the same and stands earlier |
| `DurationPlan.ManualPlan` | lib/episode_duration_plan.py:325-331 | in a plan by hand every adjustable shot gets exactly what it was given |
| `DurationPlan.PlanExistsIff` | lib/episode_duration_plan.py:236-254 | there is a plan iff the target is positive, ids are unique, every shot is valid, the fixed ones leave room and, by hand, every adjustable shot has a positive allocation |
| `DurationPlan.PlanErrorIsTrue` | lib/episode_duration_plan.py:236-254 | the reason given when there is no plan is true |
| `DurationPlan.FaultIsFirst` | lib/episode_duration_plan.py:302-312 | the fault reported is that of the first faulty shot |
| `DurationPlan.ChangesInOrder` | lib/episode_duration_plan.py:266-280 | the preview lists exactly the allocations that ask an adjustable shot for another duration, in plan order |
| `DurationPlan.PlannedShot` | lib/episode_duration_plan.py:349-397 | every adjustable shot of a plan asks for the supported duration nearest to its share, the smaller on ties, with a reason iff the share is not supported; every other keeps its own |
| `DurationPlan.PreviewReplan` | lib/episode_duration_plan.py:261-281 | the changes in plan order, against the last shot with each id |
| `DurationPlan.AppliedShot` | lib/episode_duration_plan.py:283-289 | after applying, every adjustable shot has the duration asked for and nothing else has changed |
| `DurationPlan.ReplanningIsIdle` | lib/episode_duration_plan.py:217-225 | applying, planning again and previewing gives no changes, for all three strategies |
| `DurationPlan.FixedShotsNeverChange` | lib/episode_duration_plan.py:220-224 | a change names an adjustable shot, its present duration and the plan's different request |
| `DurationPlan.FirstFault` | lib/episode_duration_plan.py:302-312 | there is no fault iff every shot is valid |
| `Relations.SamePairKey` | lib/character_relations.py:116-123 | pairs have one key iff they join the same characters, either way round unless directed |
| `Relations.ResolveByNorm` | lib/character_relations.py:126-130 | only the normal form of a name decides which character it resolves to |
| `Relations.ResolveFindsLast` | lib/asset_types.py:172-189 | a name resolves iff some character has the same normal form, and then to the last of those |
| `Relations.NormalizeEdges` | lib/character_relations.py:140-156 | accepts iff both ends are known and differ and ids and pair-with-kind are unique; resolves names, and a refusal gives a true reason |
| `Relations.NormalizePairs` | lib/character_relations.py:158-169 | accepts iff all names are known; drops self pairs and repetitions, first one kept |
| `RelationLaws.PairsInOrder` | lib/character_relations.py:158-169 | of all suppressed pairs that join the same two characters the first is kept, with resolved names, in order, and self pairs are dropped |
| `Relations.MergeAi` | lib/character_relations.py:200-242 | the user's edges followed by the AI's accepted ones, and one revision more |
| `Relations.ApplyManual` | lib/character_relations.py:245-296 | unchanged edges as they were, all others the user's, removed AI edges suppressed, and one revision more |
| `RelationLaws.NormalizedIsClean` | lib/character_relations.py:133-183 | what normalization returns, normalization accepts unchanged |
| `RelationLaws.RefreshIsClean` | lib/character_relations.py:209-242 | a refresh gives a graph that needs no repair, keeps every manual or overridden edge, and adds nothing on a protected or suppressed pair |
| `RelationLaws.ProposalsArrive` | lib/character_relations.py:211-242 | for every proposed edge, first of its pair and kind, whose pair no user-owned edge joins and no suppression names, the refreshed graph has exactly one AI-owned edge with that pair and kind, and it shows the resolved ends, caption and description proposed |
| `RelationLaws.OnlyProposalsArrive` | lib/character_relations.py:211-242 | every AI-owned edge after a refresh was proposed in it, first of its pair and kind, on a pair neither user-owned nor suppressed |
| `RelationLaws.SaveIsClean` | lib/character_relations.py:257-296 | a save gives a graph that needs no repair with exactly the submitted ids and pairs |
| `RelationLaws.SuppressedAfterSave` | lib/character_relations.py:278-289 | a pair is suppressed after a save iff it was, or an AI-owned edge on it was left out, and the save has no edge on it |
| `RelationLaws.SaveAssignsOwners` | lib/character_relations.py:265-276 | an edge that looks as it did is kept as it was, whoever owns it; every other one becomes the user's and shows what was submitted, with the confidence of the edge it edits, if any |
| `RelationLaws.RunIsSound` | lib/character_relations.py:200-296 | in every run from the empty graph present and suppressed pairs are disjoint and the revision counts the steps |
| `RelationLaws.SuppressionPersists` | lib/character_relations.py:212-228 | a suppressed pair stays suppressed and without an edge until a save puts one on it |
| `RelationLaws.RemovalIsRemembered` | lib/character_relations.py:278-289 | after a save that removes an AI-owned edge and leaves none on its pair, nothing but a save brings the pair back |

## Left out

- Worker.GenerationWorker.ClaimLane: awaits inside the loop are not interleaved with other coroutines; interleavings are the subject of `TaskRuns` and `LaneRuns`.
- Worker.GenerationWorker.ProcessTask: when a failure or a cancellation ends a task, what becomes of the tasks waiting for it is left to steps of `TaskRuns` that may happen at any time (`CascadeFailed`, `CascadeCancelled`), as in `FailOrConcede` and `ScanOrphans`.
- Worker.GenerationWorker.RouteClaimed: the same for the dependents of a task failed as unsupported.
- Worker.GenerationWorker.WriteOutcome: the same for the dependents of a task whose outcome is a failure or a cancellation.
- Worker.GenerationWorker.ScanOrphans: the same for the dependents of orphans that are failed or cancelled.
- Worker.GenerationWorker.FailOrConcede: the same for the dependents of the task it ends.
- Worker.GenerationWorker.LineUp: the same for the dependents of a batch that is failed.
- Worker.GenerationWorker.CancelTask: who asked for a cancellation and the event records of terminal states.
- TaskRuns.EnteredAtMostOnce: the manual rescue command `requeue_running` (task_repo.py:1052-1088), which is no longer called by the worker, is not a step.
- LaneRuns.NeverOverCapacity: one batch at a time and a capacity that does not change while it runs; the code does not bound overlapping batches or capacity reloads together.
- RateRuns.NoWindowOverflows: the clock never goes back and the limit is fixed; readings are exact reals.
- Durations.Allocate: weights and quotas are exact reals where the code uses floating point, so a quota that is mathematically whole is never rounded below it.
- AspectSize.SizeIsOptimal: `round` is exact where the code rounds a floating point quotient; stripping a text and reading an integer are given functions, and the warning for extreme ratios is left out.
- Relations.MergeAi: fresh ids are drawn by the caller; evidence, positions on the canvas, status fields, field lengths and stripping of strings are left out.
- Renaming and removing a character in the relation graph: single comprehensions over edges and pairs.
- The text model, its prompts, output parsing and retries: drafts are arbitrary input to the resolution of anchors.
- Unicode normalization of texts and names: an arbitrary function (`normalize`, `norm`).
- The elasticity factor 1.2 of the planning window is the exact fraction 6/5.
- Episode numbers written as strings of digits are numbers already; strings for which Python's digit test and integer conversion disagree count as unreadable.
- Symbolic links, junctions, encodings and path traversal checks; files are a map from names to contents, and `script_file` paths are members of a set of existing paths.
- Drama outline fields of drafts and rows, reading units, ledger statistics and result summaries.
- The fallbacks of the episode reader after the ledger (derived file, joined originals) and its explicit source argument.
- Lane health bookkeeping: the limits say which breakers are open and which lanes are slowed down; how failures lead there is left out.
- Leases: workers act without one in the model, which covers every flap and takeover; that only one worker is active at a time is not claimed.
- Resumed bodies: they only write outcomes, as steps at any time; polling the provider and its accounting rows are left out.
- Profile files are given as already split into logical name and mode, and the normal form of a path to restore is a given function; sync counters, symbolic-link guards and the manifest's byte format are left out. An unreadable manifest and one of another schema or profile are the same as none.
- PlanRuns.RunsStayTiled: nobody else stores rows without a range (script_review.py:99-115, project_manager.py:1213-1225), moves or deletes rows, or adds source files in these runs; those are steps of `SharedRuns`, where ranges need not tile the sources any more.
- PlanRuns.PlanningNeverSticks: the same; with these writers a row without a range stops a plan call as well, and `SharedRuns.PlanningStopsIff` is the exact condition.
- SharedRuns.RunsStayOrderly: candidate sources are added but neither removed nor changed, which the fingerprints catch; rows others store have an integer for a number and either a whole range or none.
- Provider adapters, configuration, routers, validators, media processing and the user interface.
