# lastcall engine: a verified model

The lastcall engine shows what has changed in a set of repositories since a person last looked.
Several processes share one state directory per repository, and most readers take no lock. This
project models the parts where that must not go wrong, and the parts where a fast form stands in
for a simple one, and proves both.

- **Shared state.** `SeedProtocol` has the private index, its marker, the ledger and the lock as a
  transition system over any number of processes that fail and die anywhere, and `SeedLaws` what
  holds over its runs. `PrivateIndex` has the code itself, run by one of those processes while the
  others take any steps between its file operations; `SeedOrphan` the one way a marker comes to
  lie. `OpenProtocol` has the opening of a root, `OpenRenames` what its renames take and its second
  look finds, `OpenAsides` what becomes of the files moved aside, and `OpenRuns` the runs that go
  wrong. `Reload` has the adoption of a ledger another process wrote; `ParallelMap` the bounded pool
  under every schedule.
- **Hunks.** `Lines`, `Text`, `Hunks`, `HunkLaws` and `HunkOrder`: the flat line buffer, line
  splitting, hunks of any edit script, one-pass splicing, counts, the line cap, and the order of it all.
- **Ledger.** `Civil` and `Iso8601` (dates and their text), `Retired` (what is kept, how long),
  `Resolver` (batched baselines).
- **Caches, walks, parsers.** `Seen` and `SeenRuns`, `Walk`, `Fields`, `Utf8`, `GitRecords`,
  `ConfigKeys`, `UpstreamLog` and `Upstream`.

`Prelude`, `StoreTypes`, `Order` and `Digits` hold what these share. `dafny verify dfyconfig.toml`
checks everything.

## Assumptions

- A rename is atomic and gives the file an identity (mtime, length, inode) never seen before.
- `read-tree` replaces the index at once or not at all; `refresh` changes no entry.
- Trees and blobs are content-addressed: while the store has an id, it lists or holds the
  same.
- Nothing but the program edits the state directory.
- The lock is exclusive and is released when its holder returns or dies.

## Where the code and its documentation part

The code is followed, and the exact condition is proved.

- A process that dies does not take its git along (`git.rs:296-316`), so a marker can come to name
  a tree the index does not hold, and a tree can be loaded that the ledger on disk does not name
  (`index.rs:262`): `MarkerLiesExactly`, `LoadsAgainstLedgerExactly`, both with the run of
  `OrphanMakesMarkerLie`.
- A failed directory listing reads as "nothing moved aside" (`ledger.rs:861-862`), so an opener can
  take a known root for a new one: `FirstSightWrongExactly`, `FailedListingSavesFirstSight`.
- The first look's rename holds no lock, so it can take away a ledger accepted since the look, and
  the opener then saves one with nothing seen: `TakesAnotherExactly`, `AcceptedIsMovedAside`.
- A moved-aside ledger is documented as never overwritten (`ledger.rs:7`). The name is checked and
  then renamed to, so two openers in one second can lose one; and a check that fails reads as a free
  name (`ledger.rs:884`), so one opener alone can: `OverwritesExactly`, `NeverOverwritesExactly`,
  `MisreadOverwritesExactly`, with the runs in `SharedSecondLosesFile` and `FailingCheckLosesFile`.
- The seen cache takes a tree's listing for settled (`seen.rs:24-30`), but a tree the store lacks
  lists as empty (`engine.rs:1438-1444`) and is cached so: `ScanMany`, `StaleExactly`.
- The first look treats another root's ledger as unreadable; the second, under the lock, does not
  compare the recorded root (`engine.rs:1092-1097`): `SecondLookMeetsOtherRootExactly`,
  `SecondLookMeetsOwnRoot`, `OtherRootIsOpened`.
- `parse_iso8601` takes signs, a day no month has and a sixty-first second: `StrictExactly`,
  `LenientText`.
- The thirty days of a retired record count from the whole second, and a stamp of the year 10000 or
  later is never kept: `ThirtyDaysExactly`.
- `parse_log` cuts a path at a line feed, so a commit that touched such a path counts as touching
  its parts: `LogRoundTripExactly`, `LineFeedCutsPath`. The same cut is what keeps the batched
  question of `annotate` in step: `PathsAreClean`.

## Model

| member | source | states |
|---|---|---|
| `SeedLaws.MarkerNeverLies` | `crates/lastcall-engine/src/index.rs:240-341` | In every state any number of processes can reach by seeding, failing at any step, dying mid-seed or forgetting the marker, a marker naming a tree means the index holds exactly that tree, as long as nobody dies with its git still at work |
| `SeedLaws.MarkerLiesExactly` | `crates/lastcall-engine/src/index.rs:295-341` | With orphaned gits too: a marker lies if and only if the last load of the index was an orphan's, of a tree the marker does not name |
| `SeedOrphan.OrphanMakesMarkerLie` | `crates/lastcall-engine/src/git.rs:296-316` | The run behind both exceptions: a process dies once its git is started, another folds to a newer tree, and the orphan then replaces the index under the new marker, with a tree the ledger on disk does not name |
| `SeedProtocol.StepKeepsInv` | `crates/lastcall-engine/src/index.rs:202-341` | Every step of every process keeps the protocol's invariant (lock, marker, identities, each process's place) |
| `SeedProtocol.OneHolder` | `crates/lastcall-engine/src/ledger.rs:915-955` | No two processes are past the ledger lock at once |
| `SeedLaws.IdentityNeverReturns` | `crates/lastcall-engine/src/index.rs:67-80` | A marker identity issued before one moment and seen at a later one was there, naming the same tree, at every moment between |
| `SeedLaws.ReaderSawOneIndex` | `crates/lastcall-engine/src/index.rs:67-80` | After `ensure(T)` answers with identity m, if a later look still finds m the marker was that one throughout and the index held T at every moment between, with no lock held and whatever others did, except exactly while an orphan's load of another tree came last |
| `SeedLaws.ReaderWindowOpensAtIdentity` | `crates/lastcall-engine/src/index.rs:198-209` | The window opens at the identity read: a reseed between the identity read and the content read makes the later check disagree |
| `SeedLaws.SeedsOnlyWhatTheLedgerNames` | `crates/lastcall-engine/src/index.rs:262-293` | A live process's seed loads a non-empty tree only while the ledger on disk names it or no ledger is there, under the lock and with the marker away |
| `SeedLaws.LoadsOnlyWhatTheLedgerNames` | `crates/lastcall-engine/src/index.rs:262-315` | Every load of a run in which nobody dies with its git still at work is of a tree the ledger allows (it names it, no ledger is there, or the tree is the empty one), under the lock and with the marker away |
| `SeedLaws.LoadsAgainstLedgerExactly` | `crates/lastcall-engine/src/index.rs:262-315` | Orphans and all: a load goes against the ledger on disk if and only if it is an orphan's, of a tree the ledger allowed when its git was left at work and that another save has since replaced |
| `SeedLaws.SavePublishes` | `crates/lastcall-engine/src/ledger.rs:893-911` | A save that works, a fold's or any other, puts a ledger on disk that names its tree; one that fails leaves the ledger |
| `SeedLaws.FailedRemovalLeavesMarker` | `crates/lastcall-engine/src/index.rs:299-307` | A missing marker is no failure: a seed stops at its removal only where a marker stays, and nothing has changed |
| `SeedLaws.QuietBeforeSeed` | `crates/lastcall-engine/src/index.rs:216-229` | While one process is between taking the lock and its seed, no step moves the marker, and only an orphan moves the index |
| `SeedLaws.RefusalTouchesNothing` | `crates/lastcall-engine/src/index.rs:216-308` | A call that is past the lock and answers without having removed the marker or saved (the ledger refuses, the save or the removal fails, a second look finds the marker fresh) leaves the marker as it was, the index too unless an orphan lands, the ledger as it was or moved aside, and the lock not its own |
| `SeedLaws.LockFreeOutsideCalls` | `crates/lastcall-engine/src/index.rs:202-238` | Whoever has returned, died or not begun does not hold the lock |
| `PrivateIndexCode.OthersLeaveMine` | `crates/lastcall-engine/src/index.rs:240-252` | Any run of the others leaves a process where it stands, and the marker and index to the lock's holder |
| `PrivateIndexCode.PrivateIndex.constructor` | `crates/lastcall-engine/src/index.rs:125-140` | A process starts between calls, over a directory as first found |
| `PrivateIndexCode.PrivateIndex.MarkerId` | `crates/lastcall-engine/src/index.rs:168-173` | The marker's identity at one moment, as a step of the protocol; a stat that fails answers none |
| `PrivateIndexCode.PrivateIndex.LooksLikeAnIndex` | `crates/lastcall-engine/src/index.rs:175-184` | One read of the header: unusable only when it fails or no index is there at some moment |
| `PrivateIndexCode.PrivateIndex.RecordedTreeIs` | `crates/lastcall-engine/src/index.rs:157-189` | One read of the marker: it names the tree or it does not, and the look ends with that |
| `PrivateIndexCode.PrivateIndex.IsFresh` | `crates/lastcall-engine/src/index.rs:175-189` | Header, then recorded tree, others between: fresh only when both reads work and the marker names the tree, and not fresh only when a read fails or at some moment of the call the directory was not fresh |
| `PrivateIndexCode.PrivateIndex.LedgerLock` | `crates/lastcall-engine/src/index.rs:254-260` | The lock is held on success, and was free; a refusal means a spent budget or a moment at which another held it |
| `PrivateIndexCode.PrivateIndex.CheckLedger` | `crates/lastcall-engine/src/index.rs:271-291` | The seed goes on exactly when the tree is empty or a read that worked found a ledger that allows it; "moved" exactly when it names another tree, "unreadable" exactly when the read fails or the ledger does not parse |
| `PrivateIndexCode.PrivateIndex.Seed` | `crates/lastcall-engine/src/index.rs:298-315` | Marker away, `read-tree`, marker in: done means a moment, under the lock, at which the marker names the tree and the index holds it or an orphan's; not done means a step failed |
| `PrivateIndexCode.PrivateIndex.RenameMarkerIn` | `crates/lastcall-engine/src/index.rs:318-341` | A marker arrives whole, naming the tree, under an identity no marker had before the call, or not at all |
| `PrivateIndexCode.PrivateIndex.SeedChecked` | `crates/lastcall-engine/src/index.rs:271-293` | A seed that happened was allowed by the ledger at some moment of the call, or is of the empty index, and was done under the lock; a refusal has its own ground |
| `PrivateIndexCode.PrivateIndex.Forget` | `crates/lastcall-engine/src/index.rs:250-252` | A fold whose seed failed leaves no marker when the removal works |
| `PrivateIndexCode.PrivateIndex.Ensure` | `crates/lastcall-engine/src/index.rs:202-228` | If an answer carries a marker identity that is still current, the marker names the tree asked for and the index holds it unless an orphan came last; an identity was the marker's during the call; nothing but a look that failed or a moment at which the index was not fresh leads to the lock, and again, under the lock, to a seed; a seed was this process's own; every error has its ground (lock held, another tree named, ledger unreadable, a failed step); the lock is free on every return |
| `PrivateIndexCode.PrivateIndex.Reseed` | `crates/lastcall-engine/src/index.rs:234-238` | Same promise and grounds, with a seed of its own in every answer |
| `PrivateIndexCode.PrivateIndex.Fold` | `crates/lastcall-engine/src/index.rs:240-252` | Written means that the ledger named this tree at a moment of the call under this process's lock, and, unless a step of the seed failed, that no sooner than that the marker named it and the index held it; after a failed seed no marker is left unless that failed too; an error means that the save failed or the lock was held; a marker left behind tells the truth, orphans aside, and the lock is free |
| `PrivateIndexCode.PrivateIndex.ScanOnce` | `crates/lastcall-engine/src/scan.rs:563-597` | Two unlocked reads under one marker: without a notice both, at two moments of the call, saw exactly the tree asked for, except exactly while an orphan's load of another came last; a notice or "index moved" means that a look at the marker failed, or that its identity differed at two moments of the call or was missing at one; an unreadable index was seeded anew; every error has its ground; a quiet, faultless scan gives a pile without a notice |
| `PrivateIndexCode.PrivateIndex.ScanRoot` | `crates/lastcall-engine/src/engine.rs:1270-1292` | At most two attempts; both reads of a pile without a notice, made during the call, saw its own tree, orphans aside; a second attempt and a notice each have their ground in what the directory showed or a failed look; a quiet root, faultlessly read, takes one attempt and no notice |
| `OpenProtocol.StepKeepsInv` | `crates/lastcall-engine/src/engine.rs:1053-1159` | Every step of every opener and writer keeps: one lock holder, a decision only while no ledger is there, a temporary file that is the holder's own |
| `OpenProtocol.OnceKnown` | `crates/lastcall-engine/src/ledger.rs:856-873` | Once a ledger was there, a ledger or one moved aside is there ever after |
| `OpenProtocol.FirstSightMeansNeverSeen` | `crates/lastcall-engine/src/engine.rs:1084-1156` | A first-sight ledger is saved, by an opener whose listing worked, only if no ledger and no moved-aside ledger existed then or at any earlier moment |
| `OpenProtocol.FirstSightOnce` | `crates/lastcall-engine/src/engine.rs:1084-1156` | Hence at most one first sight by openers whose listing worked, over every interleaving of openers, writers and crashes |
| `OpenProtocol.FirstSightAgain` | `crates/lastcall-engine/src/engine.rs:1084-1156` | A first sight saved after any other is by an opener whose listing failed, where no ledger is and one lies moved aside |
| `OpenProtocol.FirstSightWrongExactly` | `crates/lastcall-engine/src/engine.rs:1104-1105` | With a listing that works the decision is a first sight exactly when no ledger was ever there or moved aside; it is wrong exactly when a ledger lies moved aside and the listing failed (a failed listing reads as "none") |
| `OpenProtocol.FirstSightExactly` | `crates/lastcall-engine/src/engine.rs:1104-1156` | What an opener's commit puts on disk is a first sight if and only if no ledger was ever there or moved aside, or it could not list the directory; else one with nothing seen |
| `OpenProtocol.LookExactly` | `crates/lastcall-engine/src/ledger.rs:823-836` | A look opens a ledger exactly when it parses and, at the first look, is this root's; moves it aside exactly otherwise; gives up exactly when the read fails; and changes nothing itself |
| `OpenProtocol.OpenedWithLedger` | `crates/lastcall-engine/src/engine.rs:1085-1156` | Nobody opens a root without a ledger on disk at that moment |
| `OpenProtocol.GaveUpForGood` | `crates/lastcall-engine/src/engine.rs:1053-1159` | An opener that gave up makes no step any more and has no lock |
| `OpenProtocol.OpenedStays` | `crates/lastcall-engine/src/ledger.rs:907-911` | A root once opened stays open to its process, whatever becomes of its saves |
| `OpenRuns.FailedListingSavesFirstSight` | `crates/lastcall-engine/src/engine.rs:1092-1156` | Such a run from any directory with a file moved aside and no ledger: it ends with a first-sight ledger saved |
| `OpenRuns.OpensAlone` | `crates/lastcall-engine/src/engine.rs:1053-1159` | From any directory, the run of one opener whose operations work: a good ledger is opened as it is; any other is moved aside whole, with one with nothing seen in its place; none gives a first sight, or nothing seen if a file lies moved aside; a stale temporary file is gone |
| `OpenRuns.SecondOpensTheFirsts` | `crates/lastcall-engine/src/engine.rs:1091-1097` | Two processes open a new root: the one second to the lock opens the first one's first sight and saves none of its own |
| `OpenProtocol.OpenerReplacesNothing` | `crates/lastcall-engine/src/engine.rs:1085-1156` | An opener commits its ledger only where no ledger is: the commit itself writes over nothing (its unlocked rename before that is another matter, see below) |
| `OpenRenames.TakesAnotherExactly` | `crates/lastcall-engine/src/ledger.rs:829-835` | A first look's rename takes away a file other than the one its process judged if and only if a save was published between the look and the rename |
| `OpenRenames.LockedRenameTakesJudged` | `crates/lastcall-engine/src/engine.rs:1091-1103` | A rename under the lock always takes the file that was judged |
| `OpenRuns.AcceptedIsMovedAside` | `crates/lastcall-engine/src/ledger.rs:823-835` | A run in which an opener moves an accepted ledger aside in place of the garbled one it judged, and saves one with nothing seen |
| `OpenRenames.SecondLookMeetsNew` | `crates/lastcall-engine/src/engine.rs:1091-1097` | Whatever ledger a second look meets was published since the first look ended |
| `OpenRenames.SecondLookMeetsOtherRootExactly` | `crates/lastcall-engine/src/engine.rs:1092-1097` | A second look meets another root's ledger if and only if one was published since the first look ended and is still there |
| `OpenRenames.SecondLookMeetsOwnRoot` | `crates/lastcall-engine/src/engine.rs:1066-1097` | Where no writer saves another root's ledger, no second look meets one |
| `OpenRuns.OtherRootIsOpened` | `crates/lastcall-engine/src/engine.rs:1092-1097` | A run in which a writer does, and the opener opens that root's state; such a writer is of a root whose path has the same 64-bit id (`paths.rs:22-31`) |
| `OpenProtocol.CommitPublishesOwnFile` | `crates/lastcall-engine/src/ledger.rs:893-911` | All processes share one temporary name, yet a commit publishes the very file its own process wrote |
| `OpenAsides.AsidesStay` | `crates/lastcall-engine/src/ledger.rs:7-10` | With no second that two processes may both read, and no look that takes a moved-aside file's name for a free one, what was moved aside stays under its name, unchanged |
| `OpenAsides.OverwritesExactly` | `crates/lastcall-engine/src/ledger.rs:875-890` | One rename lands on a file already moved aside if and only if its look at the name failed and read the taken name as free, or another process renamed to that very name since |
| `OpenAsides.FirstNameNotTaken` | `crates/lastcall-engine/src/ledger.rs:875-890` | The name a process settles on is the first of its second that it did not find taken: all below it are |
| `OpenAsides.MisreadOverwritesExactly` | `crates/lastcall-engine/src/ledger.rs:875-890` | With no second that two processes may both read, a rename lands on a file already moved aside if and only if its own look misread the name |
| `OpenAsides.FailingCheckLosesFile` | `crates/lastcall-engine/src/ledger.rs:875-890` | One process alone, whatever its clock: the look at a taken name fails and the rename takes the place of the file moved aside there |
| `OpenAsides.SharedSecondLosesFile` | `crates/lastcall-engine/src/ledger.rs:875-890` | Two openers in one second, every look working: a run in which the second rename lands on the first one's file and the original is gone |
| `OpenAsides.NeverOverwritesExactly` | `crates/lastcall-engine/src/ledger.rs:875-890` | From a garbled root, no run whose looks read every name right overwrites a moved-aside file if and only if there is no second that two of its processes may both read, at any of their renames |
| `Reload.RootState.TimePasses` | `crates/lastcall-engine/src/ledger.rs:839-848` | Other processes' atomic saves never make a stored stamp lie |
| `Reload.RootState.ReloadLedgerIfChanged` | `crates/lastcall-engine/src/engine.rs:278-310` | One reload, with saves between stamp and read, and a stat or a read that may fail: nothing changes, or the ledger is taken whole, its seen tree too if it is none, the one in memory, or one the store has and lists, and else none; stamp and cached tree stay true |
| `Reload.RootState.ReloadMany` | `crates/lastcall-engine/src/engine.rs:278-310` | Over any sequence of reloads and saves, a stored stamp equal to the file's means memory holds that file's record, and the cached tree is the seen tree's listing |
| `ParallelMap.StepKeepsInv` | `crates/lastcall-engine/src/engine.rs:189-203` | Every worker step of every schedule keeps the account of where each item is and how often it ran |
| `ParallelMap.StepUsesWork` | `crates/lastcall-engine/src/engine.rs:189-203` | Every step uses up work, so every schedule ends |
| `ParallelMap.AllStored` | `crates/lastcall-engine/src/engine.rs:204-208` | When all workers have stopped no slot is empty and each holds its own item's answer |
| `ParallelMap.Map` | `crates/lastcall-engine/src/engine.rs:169-209` | Every width and schedule gives the sequential map or the panic, each job run once, with as many workers as asked for, at least one, at most eight, and no more than items |
| `ParallelMap.Inline` | `crates/lastcall-engine/src/engine.rs:180-182` | The width-one path gives the same |
| `Lines.EqualExactlyWhenSameLines` | `crates/lastcall-engine/src/hunks.rs:44-49` | Two flat buffers are equal field by field exactly when they stand for the same tagged lines |
| `Lines.BytesAreJoined` | `crates/lastcall-engine/src/hunks.rs:33-49` | The byte buffer is the lines' bytes one after another |
| `Lines.Lines.Push` | `crates/lastcall-engine/src/hunks.rs:61-65` | A push appends one line to the sequence |
| `Lines.Lines.Get` | `crates/lastcall-engine/src/hunks.rs:75-82` | Line i of the sequence, or none past the end |
| `Lines.Lines.Truncate` | `crates/lastcall-engine/src/hunks.rs:100-111` | Keeps the first n lines of the sequence |
| `Lines.LinesIter.Next` | `crates/lastcall-engine/src/hunks.rs:123-126` | Takes the first line left |
| `Lines.LinesIter.NextBack` | `crates/lastcall-engine/src/hunks.rs:134-137` | Takes the last line left |
| `Lines.LinesIter.Drain` | `crates/lastcall-engine/src/hunks.rs:120-138` | Any mix of steps from both ends closes around what is left |
| `Lines.Build` | `crates/lastcall-engine/src/hunks.rs:51-111` | Any run of pushes and truncations stands for the replayed sequence |
| `Text.LinesAreUnique` | `crates/lastcall-engine/src/hunks.rs:287-301` | There is one way to cut a buffer into lines that keep their terminators |
| `Text.SplitLines` | `crates/lastcall-engine/src/hunks.rs:288-301` | The scan gives exactly that cut |
| `Hunks.GroupOldSide` | `crates/lastcall-engine/src/hunks.rs:312-344` | A group's body without inserts is the old stretch it spans |
| `Hunks.GroupNewSide` | `crates/lastcall-engine/src/hunks.rs:312-344` | A group's body without deletes is the new stretch it spans |
| `Hunks.ApplyHunks` | `crates/lastcall-engine/src/hunks.rs:460-485` | The loop with its cursor writes the one-pass splice of the selected hunks |
| `Hunks.OnePassIsBackwards` | `crates/lastcall-engine/src/hunks.rs:836-856` | The one pass equals splicing one hunk at a time from the last backwards |
| `HunkLaws.HunksAreOrdered` | `crates/lastcall-engine/src/hunks.rs:347-379` | Hunks come in order, do not overlap, are numbered from 0, and their ranges are as long as their lines on each side |
| `HunkOrder.DiffIsUnified` | `crates/lastcall-engine/src/hunks.rs:306-342` | In a diff whose script keeps a line between any two changes, no hunk has an inserted line directly before a deleted one |
| `HunkLaws.WholeScriptIsGrouping` | `crates/lastcall-engine/src/hunks.rs:354-356` | There always is a grouping of the kind assumed |
| `HunkLaws.SplicedIsMixed` | `crates/lastcall-engine/src/hunks.rs:460-485` | The pass over any chosen hunks writes the old text with exactly those stretches made new |
| `HunkLaws.AppliedIsMixed` | `crates/lastcall-engine/src/hunks.rs:458-485` | Any selection, in any order or repetition, gives the old text with exactly the selected old ranges replaced by their new ranges |
| `HunkLaws.ApplyAll` | `crates/lastcall-engine/src/hunks.rs:875-895` | All hunks in any order give the new bytes |
| `HunkLaws.ApplyNone` | `crates/lastcall-engine/src/hunks.rs:458-459` | No hunk gives the old bytes |
| `HunkLaws.ApplyIsBackwards` | `crates/lastcall-engine/src/hunks.rs:836-856` | Any selection equals one-at-a-time from the last backwards |
| `HunkOrder.SortIsStable` | `crates/lastcall-engine/src/hunks.rs:466` | The sort leaves the same hunks ascending by start, ties in the order they came |
| `HunkOrder.AppliedIsWoven` | `crates/lastcall-engine/src/hunks.rs:458-485` | Hunks of any origin, overlapping or not: each chosen hunk's new lines where it starts, and a baseline line exactly when no chosen hunk from before it covers it |
| `HunkLaws.Counts` | `crates/lastcall-engine/src/hunks.rs:436-456` | The counts off the script alone |
| `HunkLaws.HunkCountsAddUp` | `crates/lastcall-engine/src/hunks.rs:270-275` | The hunks' inserts and deletes add up to those counts |
| `HunkLaws.Truncate` | `crates/lastcall-engine/src/hunks.rs:396-434` | The shown lines are the first ones up to the cap, the rest are counted as omitted; hunks are kept whole but for a last one cut short, never to nothing, whose ranges are as long as its lines; within the cap nothing changes |
| `HunkLaws.Expand` | `crates/lastcall-engine/src/hunks.rs:391-394` | The same for a diff at cap 2000, where every range is as long as its lines on screen |
| `Civil.DayRoundTrip` | `crates/lastcall-engine/src/ledger.rs:142-164` | Every day number gives a date of the calendar, and `days_from_civil` takes it back |
| `Civil.DateRoundTrip` | `crates/lastcall-engine/src/ledger.rs:142-164` | Every date of the calendar survives the trip through its day number |
| `Civil.TomorrowIsNext` | `crates/lastcall-engine/src/ledger.rs:141-150` | The day after a date, by the calendar's own rules, has the next number; 1970-01-01 is day 0 |
| `Civil.DaysKeepOrder` | `crates/lastcall-engine/src/ledger.rs:141-150` | Day order is calendar order |
| `Civil.YearOfEra` | `crates/lastcall-engine/src/ledger.rs:153-164` | The year-of-era formula finds the year whose days enclose the day |
| `Iso8601.TextRoundTrip` | `crates/lastcall-engine/src/ledger.rs:88-125` | Parsing what was printed gives the whole second from 1970 through 9999, and nothing from the year 10000 on |
| `Iso8601.StrictExactly` | `crates/lastcall-engine/src/ledger.rs:103-125` | A text the parser takes is the one its instant prints as exactly when its fields are digits alone, the day is in its month and the second is below 60 |
| `Iso8601.ParsesExactly` | `crates/lastcall-engine/src/ledger.rs:103-125` | The texts the parser takes, exactly: fixed width, six fields that are digits after a sign or none, month 1 to 12, day 1 to 31, hour to 23, minute to 59, second to 60, not before 1970 |
| `Iso8601.LenientText` | `crates/lastcall-engine/src/ledger.rs:103-125` | A concrete text, with an hour of -1, that the parser takes |
| `Retired.OldestIsUnique` | `crates/lastcall-engine/src/ledger.rs:615-622` | By (stamp or epoch, name) there is one oldest record |
| `Retired.FindOldest` | `crates/lastcall-engine/src/ledger.rs:615-622` | The search finds it |
| `Retired.OlderThroughText` | `crates/lastcall-engine/src/ledger.rs:615-622` | Two dates as written order their records by the whole second, then by name |
| `Retired.UnreadableGoesFirst` | `crates/lastcall-engine/src/ledger.rs:615-622` | A record whose date cannot be read is older than any retired after the epoch's first second |
| `Retired.EvictedAreOldest` | `crates/lastcall-engine/src/ledger.rs:610-624` | What eviction keeps is the youngest records, unchanged, as many as the cap lets stay |
| `Retired.Ledger.RetireRecord` | `crates/lastcall-engine/src/ledger.rs:606-624` | The new record in, then the oldest out until the cap holds |
| `Retired.Ledger.ExpireRetired` | `crates/lastcall-engine/src/ledger.rs:626-636` | A record stays exactly when its stamp is the text of an instant that now is at most thirty days past, and those that stay are unchanged |
| `Retired.ExpireExactly` | `crates/lastcall-engine/src/ledger.rs:626-636` | That promise has one result: the expiry the theorems about runs speak of |
| `Retired.Ledger.PushUndo` | `crates/lastcall-engine/src/ledger.rs:595-600` | The newest 20 entries, in order |
| `Retired.RetireDropsOldest` | `crates/lastcall-engine/src/ledger.rs:602-624` | Within the cap nothing is dropped; at the cap exactly the oldest of all goes and nothing else changes |
| `Retired.NeverOverCap` | `crates/lastcall-engine/src/ledger.rs:602-636` | At most 20 retired records after any sequence of calls |
| `Retired.KeptExactly` | `crates/lastcall-engine/src/ledger.rs:602-636` | Over any run, a record neither evicted nor replaced is there at the end, unchanged, exactly when it outlives every expiry |
| `Retired.WindowThroughText` | `crates/lastcall-engine/src/ledger.rs:626-636` | A record retired at t is in its window at u, through the text of its date, exactly from the whole second of t for thirty days |
| `Retired.ThirtyDaysExactly` | `crates/lastcall-engine/src/ledger.rs:626-636` | "From t to t plus thirty days" is exact if and only if t is a whole second from 1970 through 9999 |
| `Retired.KeptThroughTheWindow` | `crates/lastcall-engine/src/ledger.rs:602-636` | The two together, for whole runs |
| `Resolver.SortDedupSame` | `crates/lastcall-engine/src/ledger.rs:1052-1053` | Sorting and dropping repeats keeps the same objects, once each and in order |
| `Resolver.Wanted` | `crates/lastcall-engine/src/ledger.rs:1039-1053` | The batch asks for every object the paths can need and no other |
| `Resolver.Found` | `crates/lastcall-engine/src/ledger.rs:1054-1059` | Zipping answers to questions gives what the store holds of what was asked |
| `Resolver.BaselineResolver.constructor` | `crates/lastcall-engine/src/ledger.rs:1033-1066` | The table agrees with the store on every object the paths can need |
| `Resolver.BaselineResolver.Baseline` | `crates/lastcall-engine/src/ledger.rs:1068-1105` | The answer and notices of looking each object up on its own; a `Present` answer names an object the store holds |
| `Resolver.BaselineResolver.SizeOf` | `crates/lastcall-engine/src/ledger.rs:1107-1111` | The size of an object the batch found, when the store reports one |
| `Resolver.ResolveAll` | `crates/lastcall-engine/src/ledger.rs:1020-1105` | For a whole scan, batched and direct resolution agree on every baseline and every notice |
| `Seen.SeenCache.Prune` | `crates/lastcall-engine/src/seen.rs:57-67` | Exactly the trees some record names are kept |
| `Seen.SeenCache.Fetch` | `crates/lastcall-engine/src/seen.rs:127-146` | A tree is listed only when some candidate reads it and the cache lacks it |
| `Seen.SeenCache.Mark` | `crates/lastcall-engine/src/seen.rs:77-174` | Marks equal the uncached specification (sorted, no name twice, never the record in force) over the trees as the cache holds them and as listing gives the others; a failed listing leaves no mark; only trees some row reads are listed |
| `Seen.SeenCache.MarkRecord` | `crates/lastcall-engine/src/seen.rs:147-168` | One record marks exactly the candidates it matches, once |
| `Seen.NormExactly` | `crates/lastcall-engine/src/seen.rs:90-96` | Two modes count as one exactly when they are equal, or `core.filemode` is off and both are of plain files |
| `Seen.MarkedExactly` | `crates/lastcall-engine/src/seen.rs:106-121` | Going through the records in order marks a name exactly when a parked or a retired record of that name, not in force, matches |
| `Seen.ReadsExactly` | `crates/lastcall-engine/src/seen.rs:99-131` | A tree is read exactly when some record not in force leaves to it a path of a row that can be marked |
| `Seen.NamesExactly` | `crates/lastcall-engine/src/seen.rs:57-67` | A tree stays cached exactly as long as some record, parked or retired, names it |
| `Order.AscendingIsUnique` | `crates/lastcall-engine/src/seen.rs:170-172` | A set of names has one sorted list without repeats |
| `Order.LessExactly` | `crates/lastcall-engine/src/seen.rs:170-172` | Byte order: a proper beginning comes first, else the lower byte at the first difference |
| `SeenRuns.HeldWhileNamed` | `crates/lastcall-engine/src/seen.rs:25-30` | A tree once held is held as long as every scan's records name it |
| `SeenRuns.ListedAtMostOnce` | `crates/lastcall-engine/src/seen.rs:73-74` | Over any sequence of scans a tree is listed successfully at most once while records keep naming it |
| `SeenRuns.ScanMany` | `crates/lastcall-engine/src/seen.rs:70-174` | Whole sequences of scans with changing ledgers and changing listings share one cache: each is marked exactly as without a cache, every tree it reads being as the scan that listed it found it, and named ever since |
| `SeenRuns.SameTreesSameMarks` | `crates/lastcall-engine/src/seen.rs:123-172` | A row's marks are right by today's listings as well where the trees its path is left to have not changed there |
| `SeenRuns.StaleExactly` | `crates/lastcall-engine/src/seen.rs:20-30` | A record marks every row by the cached listings as it would by today's, whatever the row holds, if and only if it leaves no path to a tree that has changed there since it was listed |
| `Walk.BelowExactly` | `crates/lastcall-engine/src/roots.rs:341-374` | Folder by folder finds exactly the paths the declarative rule describes, for every finite tree |
| `Walk.Discover` | `crates/lastcall-engine/src/roots.rs:313-374` | Terminates and finds exactly the repositories at levels 1 to N whose strict ancestors are real, readable, unskipped, no repository and no `WALK_SKIP` name |
| `Walk.ReadForRepositories` | `crates/lastcall-engine/src/roots.rs:350-373` | Reading one folder of the stack accounts for all it holds |
| `Walk.LevelOne` | `crates/lastcall-engine/src/roots.rs:313-349` | Level 1, symlinked repositories included, leaves exactly the rest to the stack |
| `Walk.MatchingDirs` | `crates/lastcall-engine/src/roots.rs:700-743` | Terminates and gives the canonical path of exactly the folders that match within reach |
| `Walk.MatchesDir` | `crates/lastcall-engine/src/roots.rs:222-236` | Some prefix of the path matches, as `dir` or as `dir/` |
| `Walk.FileUnderExactly` | `crates/lastcall-engine/src/roots.rs:594-600` | A path is filed under the first parent dir that holds it, or in its own folder when none does |
| `Walk.SkipsExactly` | `crates/lastcall-engine/src/roots.rs:233-262` | A folder is skipped exactly when it is and holds no parent dir and no launch directory, and a pattern matches it or a folder above it below the place it is filed under |
| `Walk.SkipGoesDown` | `crates/lastcall-engine/src/roots.rs:216-262` | A pattern that drops a folder under a parent dir drops everything under it |
| `Walk.SkippingFirstIsFiltering` | `crates/lastcall-engine/src/roots.rs:194-196` | Asking the skip before anything is read finds what a walk without it would, less the skipped paths |
| `Walk.PatternsOnlyRemove` | `crates/lastcall-engine/src/roots.rs:188-262` | The same for `discover` with real skip patterns and protected folders |
| `Fields.SplitExactly` | `crates/lastcall-engine/src/git.rs:792-798` | Splitting and joining are each other's inverse |
| `Fields.SplitNulInverts` | `crates/lastcall-engine/src/git.rs:791-798` | NUL-terminated records split back, empty ones included |
| `Fields.SplitNulCovers` | `crates/lastcall-engine/src/git.rs:791-798` | Any buffer is its records terminated; only a last NUL may be missing |
| `GitRecords.TabbedExactly` | `crates/lastcall-engine/src/git.rs:870-882` | A tabbed record reads as something exactly when it is that printed |
| `GitRecords.RecordsExactly` | `crates/lastcall-engine/src/git.rs:870-894` | A listing reads as these entries exactly when it is well-formed lines printed and these are the ones kept |
| `GitRecords.OidIsHex` | `crates/lastcall-engine/src/git.rs:121-127` | An id is the lowercase hexadecimal print of 40 or 64 digits |
| `GitRecords.ParseLsTreeZ` | `crates/lastcall-engine/src/git.rs:871-894` | The loop computes that reading of `ls-tree`, unknown modes passed over |
| `GitRecords.TreeRoundTrip` | `crates/lastcall-engine/src/git.rs:862-894` | `ls-tree` entries come back whatever bytes but NUL their paths hold |
| `GitRecords.UnknownModesPassedOver` | `crates/lastcall-engine/src/git.rs:862-894` | A line of an unknown mode is passed over, whatever its id, and every other line comes back |
| `GitRecords.ParseLsFilesStageZ` | `crates/lastcall-engine/src/git.rs:906-928` | The loop computes that reading of `ls-files --stage` |
| `GitRecords.StageRoundTrip` | `crates/lastcall-engine/src/git.rs:896-928` | Stage entries come back, absent modes and stages to 255 included |
| `GitRecords.StageExactly` | `crates/lastcall-engine/src/git.rs:906-928` | The stages there are: digits, a plus sign before them or none, that make 255 at most |
| `GitRecords.DiffLineExactly` | `crates/lastcall-engine/src/git.rs:820-857` | A diff record reads as something exactly when the fields begin with that printed, in two fields or three |
| `GitRecords.ParseDiffZ` | `crates/lastcall-engine/src/git.rs:815-860` | The loop with its index computes the reading of the fields, first problem first |
| `GitRecords.DiffExactly` | `crates/lastcall-engine/src/git.rs:814-860` | Fields read as these entries exactly when they are well-formed records printed one after the other |
| `GitRecords.DiffRoundTrip` | `crates/lastcall-engine/src/git.rs:800-860` | Diff entries come back, two- and three-field ones mixed, scores and any NUL-free paths included |
| `ConfigKeys.NormalizeByte` | `crates/lastcall-engine/src/git.rs:600-616` | Each byte is folded unless a dot stands on either side of it |
| `ConfigKeys.LowerExactly` | `crates/lastcall-engine/src/git.rs:600-616` | Two bytes fold alike when they are equal or one Latin letter in its two cases |
| `ConfigKeys.NormalizeExactly` | `crates/lastcall-engine/src/git.rs:600-616` | Two keys are stored under one name exactly when git takes them for the same key |
| `ConfigKeys.Parse` | `crates/lastcall-engine/src/git.rs:553-589` | `raw` answers the last value under git's own comparison, and nothing exactly when no record sets the key |
| `ConfigKeys.KeyThenValue` | `crates/lastcall-engine/src/git.rs:540-546` | The key ends at the first line feed, so values keep `=` and line feeds |
| `UpstreamLog.ParseLog` | `crates/lastcall-engine/src/upstream.rs:115-148` | The loop gives each well-headed chunk's entry, in order |
| `UpstreamLog.PathsAreClean` | `crates/lastcall-engine/src/upstream.rs:134-138` | No path the log gives has a line feed, a NUL or an SOH in it |
| `UpstreamLog.LogRoundTripExactly` | `crates/lastcall-engine/src/upstream.rs:112-148` | A printed log comes back exactly when every path in it is non-empty and free of SOH, NUL and line feed |
| `UpstreamLog.LineFeedCutsPath` | `crates/lastcall-engine/src/upstream.rs:134-138` | A commit that touched one path with a line feed in it reads as one that touched the two halves |
| `UpstreamLog.BadChunkIsPassedOver` | `crates/lastcall-engine/src/upstream.rs:115-133` | A chunk that is no entry costs its own commit and no other, before it or after it |
| `Upstream.Classify` | `crates/lastcall-engine/src/upstream.rs:150-230` | Both sets, path by path: touched from upstream and by no local commit, or by both; nothing when idle; a failure exactly when a call fails |
| `Upstream.SortCommits` | `crates/lastcall-engine/src/upstream.rs:208-220` | One range's commits go to the two sets by where they come from |
| `Upstream.UpstreamIsByOthers` | `crates/lastcall-engine/src/upstream.rs:208-213` | A commit counts as upstream exactly when a remote has it and neither its author nor its committer is a non-empty address of the user's |
| `Upstream.ClassifiedDivides` | `crates/lastcall-engine/src/upstream.rs:222-228` | The two sets share no path and together hold what commits from upstream touched |
| `Upstream.OrderDoesNotMatter` | `crates/lastcall-engine/src/upstream.rs:176-221` | Neither the order of the heads nor that of the commits in their logs changes the classification |
| `Upstream.LineReads` | `crates/lastcall-engine/src/upstream.rs:288-304` | An answer line reads as the blob it tells of; a missing spec is never one, whatever spaces its path has |
| `Upstream.BatchAnswers` | `crates/lastcall-engine/src/upstream.rs:251-261` | Answers come back one a question, in order |
| `Upstream.MatchesAreHeads` | `crates/lastcall-engine/src/upstream.rs:239-272` | The flattened batch loses nothing: a candidate is matched exactly when some head has its content |
| `Upstream.Annotate` | `crates/lastcall-engine/src/upstream.rs:232-286` | Every row of a classification made from logs is annotated as if each object were asked for on its own; the call is made, and can fail, exactly when there is something to ask, and a failed one changes no row |

## Left out

- `ops.rs`, `store.rs`, `watcher.rs`, `config.rs`, `restore.rs`, `status.rs` and herdr: a fold is a save under the lock and then a seed; undo, branch switches, trims and compaction are not modelled.
- `scan.rs` beyond its two reads of the index, and `scan_root` beyond its attempts (trimming, rendering, reuse of hunks, a root that is gone).
- The edit script and its grouping: any script and any grouping that drops only equal lines stand for the diff library's; minimality, the three lines of context, and what a second diff after an accept finds are not claimed.
- `Hunk::mode_change` and the ranges of the mode hunk, which are empty by design; `editor_line`, `change_lines`.
- Retired.Ledger.PushUndo: entries are plain numbers, as nothing here reads them.
- Hunks.ApplyHunks: selected hunks that reach past the baseline are excluded, as the code panics on them.
- Lines.Build: buffers of 4 GiB or more are excluded, as a push past that panics.
- JSON and serde, glob syntax (a pattern is a predicate), SHA ids (a tree or object is a number where its text is not read), canonical paths (a parameter).
- Iso8601.TextRoundTrip: times are unbounded integers of nanoseconds; overflow of 64-bit day arithmetic in far-away years is not modelled.
- Sleeps, back-off and the number of lock attempts: taking the lock succeeds when it is free or is given up.
- The temporary files of markers, which nobody reads, and git's own lock file: a load waits for no other, so every order of loads is allowed.
- Ledger stamps taken at open and after a branch switch, which are read outside the lock; the reload property is about reloads.
- The memo of `Classifier`, and the parents of a log entry.
- UpstreamLog.ParseLog: reading a header field as text and trimming it is a parameter, as is lossy text in `ConfigKeys.Parse`; `get`'s trim is not modelled.
- Upstream.LineReads: the reply is read as bytes; the code replaces bytes that are not UTF-8 first, and a replacement is never a space, a line feed or a hex digit.
- GitRecords: error messages are kinds, and `parse_ls_files_v_z` and `parse_batch_check` are left out as easy.
- Walk.Discover: a path found is one handed to `rev-parse --show-toplevel`; what git answers, a parent inside a repository, nested repositories, worktrees inside one, notices and counts of skipped folders are not modelled, and sorted vectors are sets.
- Walk.MatchesDir: `rel` is a sequence of folder names; the root folder itself, which is never under a pattern, is the empty one.
- `roots::diff`, `RootsChanged::merge`, `snooze_active`, `blob_override_count`: easy members.
