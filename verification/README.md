# CAR verification model

A Dafny model of the parts of codex-autorunner that decide what is deleted, what is copied and in what order,
of the parser that reads ticket frontmatter without a YAML library, and of the identity rules for repositories
and agents. `dafny verify dfyconfig.toml` checks all of it.

Each part that the program writes as loops over mutable state is a method or a class here, proved equal to a
short function; what the program promises is then proved about that function, for every input, every run and
every failure. The modules follow the program's files:

- `Retention`, `RetentionPlanner`, `WorktreeRetention`, `RunArchive`, `EmptyDirs`, `ArchiveSweep`: the archive
  planner. Its three stages (age, count with eviction around preserved entries, bytes) compute one closed form: all preserved entries plus the longest newest-first
  prefix of the others that is inside every limit. Pruning twice is pruning once under both sets of limits, from
  which stage order, idempotence and monotonicity follow. The two-level variant groups by worktree first. The
  sweep of empty directories after a prune is part of what a prune leaves.
- `Housekeeping`, `LogTruncation`: the deletion passes, in which any unlink may fail, delete exactly the shortest
  oldest-first prefix that meets the limits, minus what cannot be deleted; truncation leaves a suffix and reports
  the real loss.
- `SnapshotCopy`, `SnapshotTheorems`, `SnapshotEntries`, `SnapshotReads`, `SnapshotPlan`, `ResetProtocol`,
  `ResetSafety`, `ResetCoverage`, `DirtyRows`, `SnapshotTable`, `ResetLosses`: the recursive copier on a directory graph with symbolic link cycles, what it enters, skips and writes for a
  directory, for any archive entry and for a whole plan, the table of CAR-state paths and its dirty checks, the
  destructive reset as a state machine in which every step may fail, and which of the files it removes it saves.
- `Frontmatter`, `FrontmatterPrinter`, `FrontmatterRoundTrip`, `FrontmatterPlain`: the mutually recursive mapping and
  list parsers, a printer, exactly when reading what was printed gives the same value back, and what becomes of
  plain scalars, repeated keys and malformed lines.
- `ManifestIds`, `AgentConfig`, `AgentTargets`: repository ids and references, agent ids and profiles.
- `StructuralDiff`, `LocatorRefs`, `Publish`, `DurationSummary`: the JSON comparison of the drift checks, the
  bounded reference walk, publication into an outbox, and interpolated percentiles.
- `Sequences`, `Text`: filters, stable sorting and Python's string behaviour.

The short functions do not stand on their own: beside each there are lemmas that say what it computes without its
name, in seconds, bytes, characters and the policy's own fields (`PolicyHolds`, `AgeAlone`, `SideFileGoesAlong`,
`PlainEntry`, `KindsAre`, `LinesAre`, `CollapseIs` and others).

Four properties one might expect do not hold of the code; each is stated with the exact condition under which
it does, and with a smallest input at which it fails:

- A printed mapping is read back unchanged exactly if no nested mapping has a first key that starts with a dash
  and a space: such a mapping is read as a list (`RoundTrip`, `DashedKeyIsReadAsList`).
- The copier writes only files inside the worktree exactly if no database that it reaches, or that is itself an
  entry, has a `-wal` or `-shm` side file that is a link out of it: `_copy_entry` checks where links lead,
  `_copy_sqlite_sidecars` does not (`WritesInsideIff`, `EntryWritesInsideIff`, `PlanWritesInsideIff`,
  `SideFileEscapes`).
- Every regular file that a reset removes is copied into its snapshot exactly if each file of three kinds is read by
  some planned entry: a file under a reset path of a clean row, which is removed all the same; a file in the legacy
  `workspace` beside a dirty `contextspace`, of which both are removed and only the second is an entry; a regular
  side file of a dirty database path that is itself no regular file. A file of these kinds is read only through a
  link that the entry meets (`RemovedFilesSavedIff`, `UnplacedReadMeetsLink`). The dirty checks allow
  each kind: `AGENTS.md` in tickets without a ticket, a legacy note, the log beside a linked database
  (`CleanTicketsLost`, `LegacyNotesLost`, `LinkedLogLost`); `CleanRowHides` lists everything a clean row can hide.
- A preserved run survives a prune exactly if it holds a file or the planner gives up no run: the sweep takes empty
  directories, preserved or not. In a worktree archive it takes every empty directory without META as soon as
  there is one snapshot, even if none is pruned (`PreservedSurvivesIff`, `EmptyPreservedRunIsLost`,
  `WorktreeRetention.SurvivesIff`, `EmptyDirectoryIsLost`).

Smaller ones of the same kind: an alias target is found again from its runtime id alone exactly if the
id is taken for the same pair: through a stored key, else through the profile tables, else through the alias table
(`AliasStableIff`, `AliasStableByKey`, `CapitalKeyIsLost`); two equal scalars compared at the top get a "value
changed" line (`EmptyIff`, `EqualScalarsAreReported`). The safety test for repository ids on its own accepts an id
that ends in a newline, because `$` matches before it (`NewlineIsAccepted`); no loaded manifest can hold one, so all
its ids end up with safe characters only (`LoadedEndStrictlySafe`).

Outside inputs are parameters: the clock, the directory listings, which files are unreadable, which removals,
reads, writes and copies fail, what the dirty checks read in files, and the matches of the two HTML patterns.

## Model

| member | source | states |
|---|---|---|
| RetentionPlanner.ComputePrunedEntries | src/codex_autorunner/core/archive_retention.py:191-249 | the age, count and byte loops together keep exactly the closed form `Retain`, and kept and pruned together are the input, nothing lost or doubled |
| RetentionPlanner.AgeStage | src/codex_autorunner/core/archive_retention.py:208-216 | the age loop keeps the entries that are preserved or not before the cutoff, in order, and prunes the rest |
| RetentionPlanner.CountStage | src/codex_autorunner/core/archive_retention.py:218-236 | the count loop, evictions included, keeps every preserved entry and a newest-first prefix of the others, max(min(limit, n), preserved) in all |
| RetentionPlanner.ByteStage | src/codex_autorunner/core/archive_retention.py:238-247 | the oldest-first byte loop leaves every preserved entry and the longest newest-first prefix of the others within the limit |
| RetentionPlanner.EvictOldest | src/codex_autorunner/core/archive_retention.py:228-234 | removing the last kept unpreserved entry gives up exactly the oldest entry of the prefix and no preserved one |
| Retention.RetainTwice | src/codex_autorunner/core/archive_retention.py:191-249 | pruning under one set of limits and then another is pruning once under both |
| Retention.StageOrderIrrelevant | src/codex_autorunner/core/archive_retention.py:208-247 | the age, count and byte stages give the same result as all limits at once, in every order |
| Retention.RetainIdempotent | src/codex_autorunner/core/archive_retention.py:191-249 | pruning what was kept at the same clock keeps all of it |
| Retention.RetainMonotone | src/codex_autorunner/core/archive_retention.py:191-249 | tighter limits never keep an entry that looser limits prune |
| Retention.LaterClockIsTighter | src/codex_autorunner/core/archive_retention.py:208-211 | a later clock makes the age limit at least as tight |
| Retention.RetainMembers | src/codex_autorunner/core/archive_retention.py:211-234 | preserved entries survive, nothing is invented, the result is newest first |
| Retention.RetainWithinLimits | src/codex_autorunner/core/archive_retention.py:218-247 | the count limit holds up to the preserved entries, the byte limit holds or only preserved entries are left, and no unpreserved survivor is older than the cutoff |
| Retention.RetainOfPart | src/codex_autorunner/core/archive_retention.py:191-249 | whatever else takes entries away after a prune, the same limits keep all that is left |
| Retention.WithinIsRetained | src/codex_autorunner/core/archive_retention.py:191-249 | entries that are inside the limits, as far as unpreserved ones are concerned, are all kept, in whatever order they come |
| Retention.DroppedFor | src/codex_autorunner/core/archive_retention.py:208-247 | every entry that goes is at or after one that is too old, one too many, or too big for what the budget has left |
| Retention.KeptAreNewer | src/codex_autorunner/core/archive_retention.py:203-247 | no unpreserved entry is kept that is older than one that goes; at the same time the greater key is kept |
| EmptyDirs.Tree.PruneEmptyDirs | src/codex_autorunner/core/archive_retention.py:154-164 | the deepest-first loop removes exactly the directories below the base without a file below them, in whatever order the disk lists them |
| EmptyDirs.EmptyIffNoFile | src/codex_autorunner/core/archive_retention.py:158-162 | when a directory's turn comes it is empty exactly if it never had a file below it |
| EmptyDirs.SweptIsTree | src/codex_autorunner/core/archive_retention.py:154-164 | the sweep leaves a tree in which every file keeps its directories, and a second sweep removes nothing |
| WorktreeRetention.GroupByWorktree | src/codex_autorunner/core/archive_retention.py:340-343 | the grouping loop gives each worktree its own entries in order, and the dict's key order |
| WorktreeRetention.PlanTwoLevel | src/codex_autorunner/core/archive_retention.py:340-365 | both levels compute the two-level closed form, and kept and pruned partition the entries |
| WorktreeRetention.GatherPermutes | src/codex_autorunner/core/archive_retention.py:340-347 | going through the groups meets every entry exactly once |
| WorktreeRetention.TwoLevelMembers | src/codex_autorunner/core/archive_retention.py:345-365 | every preserved snapshot survives both levels and nothing is invented |
| WorktreeRetention.TwoLevelPerWorktree | src/codex_autorunner/core/archive_retention.py:345-365 | after the global stage each worktree still has at most max(limit, its preserved) snapshots and no unpreserved one older than the cutoff |
| WorktreeRetention.TwoLevelBytes | src/codex_autorunner/core/archive_retention.py:357-365 | the kept bytes fit the global budget, or only preserved snapshots remain |
| WorktreeRetention.GroupRetained | src/codex_autorunner/core/archive_retention.py:347-365 | in each worktree the global stage only shortens the newest-first prefix that its own limits left |
| WorktreeRetention.TwoLevelIdempotent | src/codex_autorunner/core/archive_retention.py:340-365 | two-level pruning at a fixed clock is idempotent |
| WorktreeRetention.TwoLevelOfPermutation | src/codex_autorunner/core/archive_retention.py:307-365 | the order of the scanned entries does not matter |
| WorktreeRetention.EntriesOfDistinct | src/codex_autorunner/core/archive_retention.py:305-329 | the keys the scan builds from directory names are distinct |
| WorktreeRetention.SplitKeys | src/codex_autorunner/core/archive_retention.py:372-380 | for any partition into kept and pruned, counts and bytes add up and the two key sets are disjoint and complete |
| WorktreeRetention.WorktreeArchive.Prune | src/codex_autorunner/core/archive_retention.py:289-380 | exactly the unretained snapshots disappear and, with the sweep, the directories without files (nothing in a dry run or without entries); bytes before are bytes after plus bytes pruned, the reported paths are the pruned ones in order |
| WorktreeRetention.SurvivesIff | src/codex_autorunner/core/archive_retention.py:370-372 | a complete snapshot is left exactly if it is retained, one without META exactly if it holds a file or there are no entries; in a dry run all are left |
| WorktreeRetention.EmptyDirectoryIsLost | src/codex_autorunner/core/archive_retention.py:366-371 | an empty directory without META is lost to a prune that prunes no entry |
| WorktreeRetention.SecondPruneRemovesNothing | src/codex_autorunner/core/archive_retention.py:289-380 | a second prune of the directories that the first one and its sweep left removes nothing, even where the sweep renewed their times |
| WorktreeRetention.PolicyHolds | src/codex_autorunner/core/archive_retention.py:289-380 | in the policy's own numbers: each worktree keeps at most its limit or its preserved snapshots, no other survivor is older than the age limit in days, and the bytes fit or only preserved ones are left |
| WorktreeRetention.WithinPolicyNothingGoes | src/codex_autorunner/core/archive_retention.py:345-365 | snapshots inside the policy's numbers are all kept, and a negative limit is none |
| RunArchive.Archive.Prune | src/codex_autorunner/core/archive_retention.py:252-286 | exactly the unretained run directories disappear and, if there is one, those without files too (nothing in a dry run), with the summary's counts, bytes and sorted paths |
| RunArchive.SurvivesIff | src/codex_autorunner/core/archive_retention.py:269-273 | a run is left exactly if the prune is dry, or it is retained and either holds a file or every entry is retained |
| RunArchive.PreservedSurvivesIff | src/codex_autorunner/core/archive_retention.py:269-273 | a preserved run is left exactly if it holds a file or every entry is retained |
| RunArchive.EmptyPreservedRunIsLost | src/codex_autorunner/core/archive_retention.py:252-286 | an empty preserved run is lost when another one is pruned |
| RunArchive.SecondPruneRemovesNothing | src/codex_autorunner/core/archive_retention.py:383-420 | a second prune at the same clock, after the sweep of the first and with times it may have renewed, removes nothing and finds the bytes that the first one reported as left |
| RunArchive.PolicyHolds | src/codex_autorunner/core/archive_retention.py:383-420 | in the policy's own numbers: at most the limit or the preserved runs are kept, no other survivor is older than the age limit in days, and the bytes fit or only preserved runs are left |
| RunArchive.WithinPolicyNothingGoes | src/codex_autorunner/core/archive_retention.py:383-420 | runs inside the policy's numbers are all kept, and a negative limit is none |
| RunArchive.PrunedForPolicy | src/codex_autorunner/core/archive_retention.py:383-420 | each pruned run is at or after one that the policy's numbers do not allow |
| RunArchive.PrunesNest | src/codex_autorunner/core/archive_retention.py:383-420 | what survives a later clock or tighter limits survives the looser prune too, sweeps included |
| ArchiveSweep.RunsOnDisk | src/codex_autorunner/core/archive_retention.py:269-273 | on the disk, removing the victims' trees and sweeping leaves exactly the run directories of the outcome |
| ArchiveSweep.SnapshotsOnDisk | src/codex_autorunner/core/archive_retention.py:366-371 | on the disk, removing the victims' trees and sweeping leaves exactly the snapshot directories of the outcome |
| Housekeeping.DirectoryRun.Apply | src/codex_autorunner/housekeeping.py:321-381 | whatever fails, the deleted set is the planned prefix minus the files that cannot be deleted, so a dry run predicts a real one; the byte total is theirs; errors are zero exactly if no planned file fails |
| Housekeeping.DirectoryRun.DeleteFile | src/codex_autorunner/housekeeping.py:327-339 | an already deleted file changes nothing, a failing one only counts an error, any other is deleted and counted once |
| Housekeeping.DirectoryRun.CountPass | src/codex_autorunner/housekeeping.py:356-362 | the pass retries the files that failed before and then goes on, one try for each file too many |
| Housekeeping.DirectoryRun.BytePass | src/codex_autorunner/housekeeping.py:370-376 | the pass tries the fewest files whose sizes cover the overage |
| Housekeeping.Left | src/codex_autorunner/housekeeping.py:350-368 | the recomputed lists, file counts and sizes are those of the files not yet deleted, failed ones included |
| Housekeeping.DoomedIsShortest | src/codex_autorunner/housekeeping.py:321-376 | the planned deletions are the shortest oldest-first prefix of the eligible files that meets the age, count and byte limits, or all of them; no file is younger than the minimum age |
| Housekeeping.AgeAlone | src/codex_autorunner/housekeeping.py:344-348 | under an age limit alone exactly the eligible files go that are that many days of 24 hours old |
| Housekeeping.DoomedMeetsRule | src/codex_autorunner/housekeeping.py:344-376 | the planned deletions leave no eligible file that is too old, and number and size within the limits or nothing eligible |
| Housekeeping.DoomedIsNeeded | src/codex_autorunner/housekeeping.py:344-376 | each planned deletion, or a later one, is of a file too old, one too many, or too big for what the limit has left |
| LogTruncation.LogFile.TruncateLines | src/codex_autorunner/housekeeping.py:495-533 | the bounded queue leaves the last lines and reports the loss; a failing operation leaves the file, reports nothing and counts one error; a dry run only reports |
| LogTruncation.LogFile.TruncateBytes | src/codex_autorunner/housekeeping.py:461-492 | the last bytes are left and the loss is reported; a failing operation leaves the file, reports nothing and counts one error; a dry run only reports |
| LogTruncation.LogFile.ApplyRule | src/codex_autorunner/housekeeping.py:388-428 | a file that is missing, irregular, unreadable by stat or too young is left alone, otherwise content, reported bytes and errors are those of both passes in order, in dry runs too |
| LogTruncation.PassesReportLoss | src/codex_autorunner/housekeeping.py:411-426 | whatever fails, a real run leaves a suffix of the file and reports original size minus final size; a dry run leaves the file alone |
| LogTruncation.PassesMeetLimits | src/codex_autorunner/housekeeping.py:411-426 | a real run without failures meets both limits; a dry run reports the sum of what each pass alone would cut |
| LogTruncation.LimitsHold | src/codex_autorunner/housekeeping.py:461-533 | after both passes both limits hold: cutting bytes makes no new line |
| LogTruncation.LineLimitIsTight | src/codex_autorunner/housekeeping.py:511-521 | the line limit keeps min(limit, all) whole lines |
| LogTruncation.SuffixHasFewerLines | src/codex_autorunner/housekeeping.py:419-426 | no suffix of a file has more lines than the file |
| LogTruncation.LinesAre | src/codex_autorunner/housekeeping.py:511-515 | the lines make up the file, none is empty, and the line feed ends each but perhaps the last and stands nowhere else |
| LogTruncation.LinesPassFails | src/codex_autorunner/housekeeping.py:495-533 | a line pass counts one error exactly if it has a limit and cannot measure, read, or write what has more lines than that; what it leaves and reports else |
| LogTruncation.BytesPassFails | src/codex_autorunner/housekeeping.py:461-492 | the same for a byte pass, with the bytes that are left |
| SnapshotCopy.Copier.CopyTree | src/codex_autorunner/core/archive.py:189-218 | terminates on every graph, restores the visited set on every exit, and has exactly the specified effect on disk, counters and skipped links |
| SnapshotCopy.Copier.CopyEntry | src/codex_autorunner/core/archive.py:221-270 | links, directories and files are copied, skipped or refused as specified, with the result and the error the source gives |
| SnapshotCopy.Copier.CopySidecars | src/codex_autorunner/core/archive.py:178-186 | a database's side files are copied beside it when they are regular files |
| SnapshotTheorems.EntersAndSkipsExactly | src/codex_autorunner/core/archive.py:198-238 | the copier enters exactly the directories reachable through children and inside links, and records exactly the links in them that lead outside |
| SnapshotTheorems.WritesInsideIff | src/codex_autorunner/core/archive.py:178-186 | every byte written comes from a regular file inside the root, if and only if no reachable database has an escaping side-file link |
| SnapshotTheorems.RealFileCopied | src/codex_autorunner/core/archive.py:189-270 | every regular file really below the source is written to the matching place with its content |
| SnapshotTheorems.TreeSnapshot | src/codex_autorunner/core/archive.py:189-270 | the destination holds every real file, and whatever else is written is what the walk finds at that place |
| SnapshotTheorems.LinkFreeCopyExact | src/codex_autorunner/core/archive.py:189-270 | a link-free tree is reproduced exactly, file for file and byte for byte, with nothing skipped |
| SnapshotTheorems.LinkFreeDirsExact | src/codex_autorunner/core/archive.py:203-212 | a copy of a link-free tree makes exactly its directories |
| SnapshotEntries.EntryEntersAndSkipsExactly | src/codex_autorunner/core/archive.py:221-270 | for any entry, the copier enters exactly the directories reachable from it and records exactly the outside links in them, or the entry if it is one |
| SnapshotEntries.EntryWritesInsideIff | src/codex_autorunner/core/archive.py:178-186 | an entry writes inside content only, if and only if neither it nor a database it reaches has an escaping side-file link |
| SnapshotEntries.PlanEntersAndSkipsExactly | src/codex_autorunner/core/archive.py:904-953 | a plan enters and records what its entries reach and meet, no more and no less |
| SnapshotEntries.PlanWritesInsideIff | src/codex_autorunner/core/archive.py:904-953 | a plan writes inside content only, if and only if none of its entries escapes |
| SnapshotEntries.PlanCopies | src/codex_autorunner/core/archive.py:178-270 | where every file can be read and no link is a loop, a plan runs to its end |
| SnapshotReads.EntryReadsIff | src/codex_autorunner/core/archive.py:178-270 | a file is the source of a write of an entry if and only if it is the entry, the inside file it links to, a side file of its database, or is read by a directory the entry reaches |
| SnapshotReads.PlanReadsIff | src/codex_autorunner/core/archive.py:904-953 | a file is the source of a write of a plan if and only if one of its entries reads it |
| SnapshotEntries.SideFileEscapes | src/codex_autorunner/core/archive.py:178-186 | a root with one database and a linked log: copied as a directory or as an entry, the outside file is written |
| SnapshotPlan.ExecuteArchiveEntries | src/codex_autorunner/core/archive.py:904-953 | the loop performs the entries in order and reports exactly the copied and the required missing labels |
| SnapshotPlan.PlanSaves | src/codex_autorunner/core/archive.py:904-953 | after a plan ran without an error, every file an entry is there to save lies in the snapshot with its content, whatever later entries wrote |
| SnapshotPlan.EntryConsistent | src/codex_autorunner/core/archive.py:178-270 | two writes of one entry to the same place put the same content there |
| SnapshotPlan.RegionsApart | src/codex_autorunner/core/archive.py:383-587 | the regions two different table destinations write to, side files included, do not overlap |
| SnapshotPlan.ResetPlanValid | src/codex_autorunner/core/archive.py:623-668 | whatever is dirty, the entries of a reset do not overwrite each other |
| SnapshotPlan.DirtySpecIsPlanned | src/codex_autorunner/core/archive.py:631-648 | every dirty row of the table has its entry in the plan |
| SnapshotTable.SideFileGoesAlong | src/codex_autorunner/core/archive.py:178-186 | whatever its stem, a file that ends in .sqlite3 or .db has its -wal and -shm side files written beside its copy |
| SnapshotTable.OtherFileGoesAlone | src/codex_autorunner/core/archive.py:178-186 | a file with another ending is the only write of its entry |
| SnapshotTable.EntryCases | src/codex_autorunner/core/archive.py:221-270 | what is absent or special does nothing; a link loop and what cannot be read raise; a file is written, a directory made and entered |
| SnapshotTable.OutsideLinkIsSkipped | src/codex_autorunner/core/archive.py:229-247 | a link is recorded and not followed exactly if its target does not lie at or below the root |
| SnapshotTable.ReportIs | src/codex_autorunner/core/archive.py:904-953 | the missing labels are those of required entries that are not there, the copied ones those of entries that left a file or a directory |
| SnapshotTable.FileHasItsPlace | src/codex_autorunner/core/archive.py:382-587 | for each of the thirteen rows, every regular file at or below a dirty row's path is in the finished snapshot at the row's place, and the reset may remove it |
| SnapshotTable.SideFileHasItsPlace | src/codex_autorunner/core/archive.py:456-488 | the side files of the two databases are in the finished snapshot beside them, and the reset may remove them |
| SnapshotTable.LegacyHasItsPlace | src/codex_autorunner/core/archive.py:870-891 | without a canonical context directory the legacy one is archived under the canonical name |
| SnapshotTable.ConfigHasItsPlace | src/codex_autorunner/core/archive.py:658-667 | the configuration is archived whatever is dirty, and no reset removes it |
| SnapshotTable.NothingElseIsRemoved | src/codex_autorunner/core/archive.py:699-723 | a reset removes nothing but the table's paths, what lies below them, and the side files of the two databases |
| ResetSafety.ResetIsSafe | src/codex_autorunner/core/archive.py:1176-1285 | in every state of every run, with a failure at any step: no file of dirty state is gone before the finished snapshot holds its copy; the final directory appears only with all files, directories and META; an existing snapshot is never overwritten; the prune never chooses the new one, and its sweep takes only directories without files |
| ResetSafety.CompleteHolds | src/codex_autorunner/core/archive.py:1199-1241 | the snapshot that is renamed into place holds every file that must survive |
| ResetSafety.StepInv | src/codex_autorunner/core/archive.py:1191-1285 | every step, failures and partial removals included, keeps the protocol's invariant |
| ResetSafety.NewSnapshotNotChosen | src/codex_autorunner/core/archive.py:1243-1250 | the prune after a reset does not choose the new snapshot, at any limits |
| ResetSafety.CanContinue | src/codex_autorunner/core/archive.py:1191-1276 | no state short of the end is stuck, except for the named errors |
| ResetCoverage.RemovedFilesSavedIff | src/codex_autorunner/core/archive.py:699-734 | every regular file the reset removes is in the finished snapshot by a copy of it, if and only if no file that no planned entry reads lies under a reset path of a clean row, in a legacy directory beside a dirty canonical one, or beside a dirty database path that is no regular file |
| ResetCoverage.ArrivesIffRead | src/codex_autorunner/core/archive.py:904-953 | a file is in the finished snapshot by a copy of it if and only if some planned entry reads it |
| ResetCoverage.UnplacedIff | src/codex_autorunner/core/archive.py:870-891 | a removed file has no place of its own in the snapshot exactly in those three cases |
| ResetCoverage.UnplacedReadMeetsLink | src/codex_autorunner/core/archive.py:221-247 | a removed file without a place is read only if a planned entry meets a link |
| ResetCoverage.ArrivesIffPlaced | src/codex_autorunner/core/archive.py:699-734 | where no planned entry meets a link, a removed file arrives exactly if none of the three cases holds |
| DirtyRows.DirtyIff | src/codex_autorunner/core/archive.py:608-616 | a row is dirty if and only if its check says so at its source |
| DirtyRows.CleanRowHides | src/codex_autorunner/core/archive.py:281-380 | a file that is removed for a clean row is one its check overlooks: the default files of tickets and context, a file where a directory is expected, an empty log or JSON value, an idle runner's database, what lies below a directory where a file is expected, a side file of a dangling link, or a legacy context file; a lock never |
| DirtyRows.DirtyByName | src/codex_autorunner/core/archive.py:382-616 | which check looks at which path |
| DirtyRows.ChecksOnFile | src/codex_autorunner/core/archive.py:281-380 | what each check says of a regular file |
| DirtyRows.ChecksOnDirectory | src/codex_autorunner/core/archive.py:281-380 | what each check says of a directory without links, in terms of what lies below it |
| DirtyRows.ChecksOnLink | src/codex_autorunner/core/archive.py:281-380 | a link to something real is checked there |
| DirtyRows.LinksCount | src/codex_autorunner/core/archive.py:291-331 | a link below a directory is payload wherever it leads, and a ticket or document unless it leads to a directory |
| ResetLosses.CleanTicketsLost | src/codex_autorunner/core/archive.py:321-331 | tickets without a ticket are clean: their AGENTS.md is removed and not copied |
| ResetLosses.LegacyNotesLost | src/codex_autorunner/core/archive.py:870-891 | beside a dirty canonical directory, a note in the legacy one is removed and not copied |
| ResetLosses.LinkedLogLost | src/codex_autorunner/core/archive.py:699-706 | a log beside a database that is a link to an existing file is removed and not copied |
| ResetLosses.LinkedNotesArrive | src/codex_autorunner/core/archive.py:221-247 | where the canonical directory is a link to the legacy one, its note has no place of its own and is copied all the same |
| Frontmatter.UnescapeScalar | src/codex_autorunner/ticket_helper_script_common.py:30-56 | the escape loop computes the decoder, a trailing backslash and unknown escapes included |
| Frontmatter.CollectBlock | src/codex_autorunner/ticket_helper_script_common.py:102-111 | the inner loop takes the indented lines without their two spaces, drops blank ones, and stops at the first flush line |
| Frontmatter.ParseSimpleYamlMapping | src/codex_autorunner/ticket_helper_script_common.py:77-123 | terminates on every text, with the value or error of the specification |
| Frontmatter.ParseSimpleYamlList | src/codex_autorunner/ticket_helper_script_common.py:126-164 | terminates on every list of lines, with the value or error of the specification |
| FrontmatterPrinter.UnescapeEscape | src/codex_autorunner/ticket_helper_script_common.py:30-56 | decoding undoes encoding for every string |
| FrontmatterPrinter.ScalarReadBack | src/codex_autorunner/ticket_helper_script_common.py:59-74 | a printed string, boolean or natural number is read as the same scalar |
| FrontmatterRoundTrip.MapReads | src/codex_autorunner/ticket_helper_script_common.py:77-123 | the mapping parser reads a printed mapping entry by entry, each block as what it looks like |
| FrontmatterRoundTrip.ListReads | src/codex_autorunner/ticket_helper_script_common.py:126-164 | the list parser reads a printed list item by item |
| FrontmatterRoundTrip.RoundTrip | src/codex_autorunner/ticket_helper_script_common.py:77-164 | parsing a printed mapping, nested to any depth, gives the same mapping back, if and only if no nested mapping starts with a dashed key |
| FrontmatterRoundTrip.DashedKeyIsReadAsList | src/codex_autorunner/ticket_helper_script_common.py:117-121 | the smallest mapping that comes back as a list, with the list that comes back |
| FrontmatterPlain.PlainEntry | src/codex_autorunner/ticket_helper_script_common.py:59-101 | a line of a key and a plain scalar is read as that key and that string, or refused if the scalar holds a colon before a blank or at its end |
| FrontmatterPlain.PlainItem | src/codex_autorunner/ticket_helper_script_common.py:134-160 | a plain list item without a colon is read as that string |
| FrontmatterPlain.MappingLine | src/codex_autorunner/ticket_helper_script_common.py:90-101 | blanks around the key and the value do not count |
| FrontmatterPlain.OtherScalars | src/codex_autorunner/ticket_helper_script_common.py:59-74 | blanks are the empty string, true and false in any case are booleans, digits are their number |
| FrontmatterPlain.UnknownEscapes | src/codex_autorunner/ticket_helper_script_common.py:48-56 | an unknown escape keeps its backslash, and so does one at the end |
| FrontmatterPlain.PutAgain | src/codex_autorunner/ticket_helper_script_common.py:96-122 | a repeated key keeps its first place and takes the last value |
| FrontmatterPlain.BlankLines | src/codex_autorunner/ticket_helper_script_common.py:82-106 | blank lines are passed over in mappings, lists and blocks |
| FrontmatterPlain.MappingErrors | src/codex_autorunner/ticket_helper_script_common.py:86-94 | which error an indented line, a line without a colon and a line without a key give |
| FrontmatterPlain.ListErrors | src/codex_autorunner/ticket_helper_script_common.py:134-162 | which error a line without a dash and an item with a block but no key give |
| FrontmatterPlain.DashedBlock | src/codex_autorunner/ticket_helper_script_common.py:117-121 | a block whose first line is dashed after any blanks is read as a list, and with more than its two blanks is an error of the list |
| ManifestIds.SanitizeIdempotent | src/codex_autorunner/manifest.py:22-26 | a sanitised id is safe, has no dash at either end, and is left alone by sanitising again |
| ManifestIds.CollapseIs | src/codex_autorunner/manifest.py:15-24 | safe characters stay and each whole run of others becomes one dash |
| ManifestIds.SanitizeIs | src/codex_autorunner/manifest.py:22-26 | what is left without the dashes at the ends is the id, or repo if nothing is left |
| ManifestIds.EnsureUniqueRepoId | src/codex_autorunner/manifest.py:29-37 | the suffix search terminates for every finite set of ids and finds the specified fresh one |
| ManifestIds.FreshIdIs | src/codex_autorunner/manifest.py:29-37 | the fresh id is the base if free, else the free candidate of least suffix, and safe if the base is |
| ManifestIds.FreshIdNumber | src/codex_autorunner/manifest.py:29-37 | a taken id gets a dash and the least decimal number from two on that makes it new |
| ManifestIds.NormalizedIsHealthy | src/codex_autorunner/discovery.py:74-89 | from distinct ids, all end up safe and distinct and the safe ones are kept |
| ManifestIds.LoadedEndStrictlySafe | src/codex_autorunner/manifest.py:309-309 | however a manifest file spells its ids, normalising the loaded manifest leaves ids of safe characters only |
| ManifestIds.StrictlySafeIff | src/codex_autorunner/manifest.py:14-19 | normalising ids that were not stripped leaves safe characters only, if and only if no accepted id ended in a newline |
| ManifestIds.NewlineIsAccepted | src/codex_autorunner/manifest.py:14-19 | given alone to the safety test, the id of a letter and a newline is accepted |
| ManifestIds.NormalizedTwice | src/codex_autorunner/discovery.py:74-89 | normalising again changes no id |
| ManifestIds.Manifest.NormalizeManifestIds | src/codex_autorunner/discovery.py:74-93 | in place: ids become the normalised ones, names are filled in, every reference to an existing entry follows it, other references stay as they are |
| ManifestIds.Manifest.RenameUnsafe | src/codex_autorunner/discovery.py:75-89 | the renaming loop yields the specified ids and a map from exactly the unsafe ids to what replaced them |
| ManifestIds.Manifest.Get | src/codex_autorunner/manifest.py:131-135 | the first entry with that id, or none if there is none |
| ManifestIds.Manifest.EnsureRepo | src/codex_autorunner/manifest.py:151-191 | the entry with the sanitised id, found or appended at the end; earlier entries keep their ids and a healthy manifest stays healthy |
| AgentConfig.StripPrefixShape | src/codex_autorunner/core/agent_config.py:58-70 | a stripped id is the kind, a separator, blanks and the profile; nothing else is lost |
| AgentConfig.StripUndoesJoin | src/codex_autorunner/core/agent_config.py:58-70 | stripping undoes joining a kind and a profile by a dash or an underscore |
| AgentConfig.InferIsLongest | src/codex_autorunner/core/agent_config.py:73-90 | the inferred backend is the longest known id that the name extends at a separator, and there is none only if no such id is known |
| AgentConfig.RequestKeepsTheName | src/codex_autorunner/core/agent_config.py:93-138 | a request without a profile stays the name or is a split of it; with a profile both are taken as given |
| AgentConfig.FailsIffBlank | src/codex_autorunner/core/agent_config.py:155-158 | resolution fails if and only if the requested id is blank |
| AgentConfig.ResolvesToItself | src/codex_autorunner/core/agent_config.py:141-224 | for every configuration, resolving a target's own logical agent and profile gives that target |
| AgentConfig.AliasIsStable | src/codex_autorunner/core/agent_config.py:171-195 | with normalised keys, an alias target found in the configuration is found again from its runtime id alone |
| AgentConfig.AliasStableIff | src/codex_autorunner/core/agent_config.py:93-138 | for every configuration, an alias target is found again from its runtime id alone if and only if a stored key, else the profile tables, else the alias table take the id for the target's pair |
| AgentConfig.AliasStableByKey | src/codex_autorunner/core/agent_config.py:93-138 | where keys stay distinct when normalised, an alias target from the configuration is found again from its id if and only if the id is a stored key, or the profile tables give its pair, or they give none and the alias table does |
| AgentConfig.CapitalKeyIsLost | src/codex_autorunner/core/agent_config.py:141-224 | a runner stored under a key with a capital is found by profile and not by its id |
| AgentConfig.RunnerIs | src/codex_autorunner/core/agent_config.py:175-197 | the runner of a profile is the first configured agent that runs it, and there is none only if no agent does |
| AgentConfig.AliasTargetShape | src/codex_autorunner/core/agent_config.py:171-215 | an alias runner's name is the logical agent, a separator and the profile, and the profile is not configured on the agent |
| AgentConfig.JoinedNameIsFound | src/codex_autorunner/core/agent_config.py:119-131 | a configured profile is reached by joining the names, unless the joined name is configured or offered by another agent |
| AgentTargets.TargetFields | src/codex_autorunner/core/agent_config.py:141-224 | only an alias runs under another id, and it alone drops the profile; a profile that was asked for is the target's |
| AgentTargets.KindsAre | src/codex_autorunner/core/agent_config.py:160-224 | canonical exactly if the agent configures the profile, an alias exactly if it does not and a configured runner or an allowed alias exists, passthrough otherwise |
| AgentTargets.RunnerFirst | src/codex_autorunner/core/agent_config.py:171-215 | an alias target runs under the first configured runner, or, where there is none, the first alias of the table |
| AgentTargets.RuntimeKindIs | src/codex_autorunner/core/agent_config.py:109-115 | an agent runs on the backend it names, else on the longest known id that its own extends, else on itself |
| AgentTargets.FromProfilesIs | src/codex_autorunner/core/agent_config.py:119-131 | the profile tables answer with the first row that has the profile the name adds to its id |
| AgentTargets.SplitsAtSeparators | src/codex_autorunner/core/agent_config.py:58-70 | names are split at a dash or an underscore and at nothing else |
| StructuralDiff.CompareNestedData | scripts/drift_check_utils.py:31-68 | the recursive comparison with its loops reports exactly the specified differences in order |
| StructuralDiff.InOrderSorted | scripts/drift_check_utils.py:48-53 | keys are taken in ascending order |
| StructuralDiff.EmptyIff | scripts/drift_check_utils.py:35-68 | the report is empty if and only if the values are equal and are containers |
| StructuralDiff.EqualScalarsAreReported | scripts/drift_check_utils.py:35-68 | two equal numbers at the top are reported as changed |
| StructuralDiff.ReportIsTrue | scripts/drift_check_utils.py:35-68 | every reported place exists in both values and differs there as reported, keys exactly and lengths exactly |
| StructuralDiff.RebuildIsActual | scripts/drift_check_utils.py:35-68 | correcting the expected value exactly at the reported places yields the actual value |
| LocatorRefs.ExtractLocatorRefs | src/codex_autorunner/browser/primitives.py:331-384 | the walk with its early exits and running duplicate check returns the first distinct references of the full emission, up to the bound |
| LocatorRefs.RefCollector.WalkSnapshot | src/codex_autorunner/browser/primitives.py:349-370 | the recursive walk adds the pre-order emission of a node, or as much of it as still matters |
| LocatorRefs.NodeGives | src/codex_autorunner/browser/primitives.py:352-365 | a node gives its role with its name and its name as text, each only if it is not blank |
| LocatorRefs.EmissionIs | src/codex_autorunner/browser/primitives.py:349-370 | a node comes before its children, and they come one after the other |
| LocatorRefs.MatchesGive | src/codex_autorunner/browser/primitives.py:374-382 | each match that is not blank gives one stripped reference of its kind, in order |
| LocatorRefs.DedupIs | src/codex_autorunner/browser/primitives.py:340-347 | removing repetitions loses nothing, adds nothing and keeps the order of first occurrences |
| LocatorRefs.BoundsNest | src/codex_autorunner/browser/primitives.py:340-351 | a larger bound only adds to the end, and one no smaller than the emission drops repetitions only |
| Publish.Disk.ReserveArtifactPath | src/codex_autorunner/browser/artifacts.py:90-102 | the numbered search finds the specified free path or fails |
| Publish.ReserveIs | src/codex_autorunner/browser/artifacts.py:77-102 | a reserved path is free and in the directory; reserving fails if and only if the name is bad or the name and all its numbered variants are taken |
| Publish.ReserveLeast | src/codex_autorunner/browser/artifacts.py:90-102 | the name itself if free, else its variant of the least free number from two to ten thousand |
| Publish.NumberedIs | src/codex_autorunner/browser/artifacts.py:95-98 | the number goes before the last dot and what follows it, unless the dot is at an end of the name |
| Publish.BadNames | src/codex_autorunner/core/filebox.py:63-72 | no name, the two directory names, and names with a slash or backslash are refused |
| Publish.RoomLeft | src/codex_autorunner/browser/artifacts.py:97-102 | reserving an ordinary name fails only if at least ten thousand files exist |
| Publish.PublishedIs | src/codex_autorunner/browser/orchestration.py:757-799 | no file that was there is changed, even by a failing run; a successful run has a copy of each selected artifact in the outbox, at a new path unless it already lay there, and no two copies share a path |
| Publish.PublishedContent | src/codex_autorunner/browser/orchestration.py:757-799 | artifacts that were there at the start are published, in order, with the content they had |
| Publish.PublishSucceeds | src/codex_autorunner/browser/orchestration.py:766-797 | a run over known artifacts with ordinary names, room and no failing copy succeeds |
| Publish.Disk.PublishArtifacts | src/codex_autorunner/browser/orchestration.py:757-799 | the loop does what the specification says to the disk, and reports it |
| DurationSummary.PercentileGrows | scripts/report_fast_test_budget.py:117-126 | a percentile of a sorted sequence lies between its ends and grows with the percentage |
| DurationSummary.PercentileExact | scripts/report_fast_test_budget.py:117-126 | a percentage that hits a position exactly gives the element there |
| DurationSummary.PercentileBetween | scripts/report_fast_test_budget.py:117-126 | between two elements the percentile goes up evenly from one to the other |
| DurationSummary.SummaryOfHundred | scripts/report_fast_test_budget.py:129-140 | of the durations from 0 to 100 each percentile of the summary is its own number |
| DurationSummary.SummaryOrdered | scripts/report_fast_test_budget.py:129-140 | p80 <= p90 <= p95 <= p99 <= max, and max is the largest duration |
| DurationSummary.SummaryOrderIrrelevant | scripts/report_fast_test_budget.py:129-140 | the summary does not depend on the order of the durations |

## Left out

Of the modelled code:

- The clock of the archive planner counts whole microseconds; overflow of Python's dates is not modelled. File times and durations are exact real numbers instead of floating point.
- Distinct entry keys, file paths and manifest ids are assumed where the program takes them from directory listings or from a loaded manifest.
- EmptyDirs.Tree.PruneEmptyDirs: no links to directories and no failing removals. The prunes contain the sweep as the loss of whole entries; the empty directories it takes from inside surviving entries show only in their renewed times.
- Housekeeping.DirectoryRun.Apply: files only; the `_prune_empty_dirs` of `housekeeping.py` that follows a run with deletions removes directories, which this class does not have.
- Removals that fail half way in `prune_worktree_archive_root` and `_prune_entries`; the reset protocol does let a prune stop at any point.
- How created-at times are parsed and directory sizes summed (`_coerce_created_at`, `_path_size_bytes`).
- The copier takes the source graph as fixed while it runs, so the destination must not be reachable from the source; a link to the directory that holds the staging area would let a real copy grow.
- The copier's paths are real paths: `.codex-autorunner` itself is not a link. `copystat` and what a failing `copy2` leaves behind are not modelled. A link loop raises, as `Path.resolve` does before Python 3.13.
- SnapshotPlan.ExecuteArchiveEntries: copy mode only, because every entry of a reset is copied; `_move_entry` and the reported moved paths are not modelled.
- `ResetSafety` holds for any set of dirty rows; `DirtyRows` models the checks that decide it, with what they read in files (blank text, an empty JSON value, an idle runner's database) as a parameter. Errors raised by a check itself are not modelled.
- Links that a reset removes are not files, so nothing is said about saving them.
- `seed_repo_files` may write anything into the worktree; nothing is proved about it. `core/state_lifecycle.py` is reduced to selecting the dirty rows in copy mode.
- DurationSummary.SummaryOrdered: over exact reals. In floating point `_percentile` can leave the interval by an ulp: two durations of 0.007 give a p80 one ulp above the maximum.
- DurationSummary.PercentileGrows: over exact reals, with the same consequence.
- Concurrent runs of the reset, and crashes between a system call and the next.
- The contents of META.json beyond its presence.
- Digits outside ASCII and numbers of more than 4300 digits in the frontmatter, which `int` treats differently from `isdigit`.
- The other functions of the generated ticket script (ticket ids, linting).
- A reference to no entry keeps its text, and a fresh id may later equal it.
- Paths, branches, destinations and commands of manifest entries; scanning and registration in `discover_and_init`.
- Lower-casing outside ASCII in agent ids; `parse_agents_config`.
- The text of the drift report's lines (`_format_key_change`, child names); NaN in JSON numbers.
- The two HTML patterns; only their matches are used. The text key of a reference payload is taken to be different for different payloads.
- Links and directories in the outbox, and paths that are spelt differently but resolve alike.
- `deterministic_artifact_name` and the other naming helpers; `_resolve_publish_keys` (the selected keys are a parameter).

Of the repository, because the logic sits in code or services outside this model or adds only finite case
analysis: worker and container reaping in `housekeeping.py`, managed threads, the browser runtime and its
scripts, server supervision, command-line entry points, `core/acp_lifecycle.py`, `agents/runtime_options.py`,
`core/car_context.py`, and the lint and scaffolding scripts.
