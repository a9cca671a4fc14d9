# Verified model of the Tachi memory core

This project models the parts of Tachi where a short piece of code decides a hard property, and proves those
properties in Dafny:

- `AnchoredFs.dfy`: creating a file exclusively and removing a file only if it has the expected bytes, as sequences of
  directory steps interleaved with any number of other calls and with a hostile environment.
- `Migration.dfy`: the split of one memory database into several, committed one database at a time, under a crash
  after any commit and any number of reruns.
- `Namespace.dfy` (modules `Sql` and `Namespace`): row predicates written once as boolean code and once as SQL, over a
  small SQL evaluator with three-valued logic, errors, `GLOB`, `LIKE`, `instr` and the JSON functions.
- `ExactEntity.dfy`: the budgeted exact-entity read, with strict and tolerant validity.
- `PrivatePartition.dfy`: the sealed private partition, its dirty bit and its receipts, with a failure at any step.
- `NearDup.dfy`: the inverted-index near-duplicate join.
- `Installer.dfy`: the reversible installer.
- `CivilDate.dfy`: a Unix timestamp as a calendar date.
- `CanonicalJson.dfy`, `BraceScanner.dfy`, `PathRouter.dfy`: a normal form, a scanner and a path normalizer.
- `Prelude.dfy`: options, results, string predicates, ASCII case, and the order of strings.

Code that updates state is modelled by classes and loops whose contracts tie the new state to a specification;
the theorems are about that specification. Concurrency and crashes are modelled as runs: sequences of states in which
each state follows from the one before by a step of the program, by a failure or by the environment.

`dafny verify dfyconfig.toml` checks the whole project.

## What the proofs found

Five properties the code or its comments suggest do not hold as stated. Each has a counterexample and an exact condition.

- Writers that change a captured file in place defeat `remove_file_if_exact`, which reads the file in several steps: a
  file that never held the expected bytes can match, and be unlinked
  (`AnchoredFs.InPlaceWriterDefeatsExactness`). The unlinked bytes are the expected ones exactly when nobody wrote to the
  file from its opening to its unlink, or the last who did left exactly those bytes (`AnchoredFs.UnlinkedBytes`).
- `normalize_path` is documented as idempotent. It is so exactly for paths that, without their outer white space and
  trailing slashes, do not end in white space (`PathRouter.IdempotentIffNoSpacedTail`, `PathRouter.NotIdempotent`).
  Both retirement checks look at one normalization, so of the writes that settle in `/sticky` exactly those with white
  space behind the last segment are accepted (`PathRouter.RetiredPathSlips`). The wiki check normalizes twice, so a path
  with two spaced segments still gets past it (`PathRouter.WikiWriteRefused`, `PathRouter.WikiPathSlipsExample`).
- The SQL form of the docs surface folds case in the path and the classifier does not. They disagree exactly on a
  wiki path in foreign case without any other docs signal, so never on a normalized path
  (`Namespace.SurfaceAgreesExactly`, `Namespace.ForeignCaseExample`).
- When a partition with an event table fails between updating the event of a receipt and updating its row, every later
  `persist` of that handle fails, so later writes never reach the sealed file (`PrivatePartition.WedgeIsReachable`,
  `PrivatePartition.WedgedUntilDropped`); the next handle that opens the file is free of it
  (`PrivatePartition.ReopeningRecovers`). A handle without faults can seal exactly when every stored receipt parses and
  every pending one can be marked (`PrivatePartition.Partition.Persist`), and a handle that could seal when it was opened
  can do so exactly as long as none of its seals failed there (`PrivatePartition.StuckIffHalfMarked`).
- After a failure the installer restores the file map exactly when it did not fail in one of two windows: with a temporary
  that exists but is not yet on the list of stages, or with an existing entry moved to its backup name but not yet noted
  (`Installer.Install`, `Installer.RestoredIff`). Each window is reached (`Installer.WindowsAreReached`).

## Model

| member | source | states |
|---|---|---|
| `AnchoredFs.RunInv` | crates/memcore/src/anchored_fs.rs:105-223 | every state of every interleaving of any number of create and remove calls with an environment that may bind any name but the fresh ones to anything but an unpublished file satisfies the protocol invariant |
| `AnchoredFs.OnlyExactFilesAreRemoved` | crates/memcore/src/anchored_fs.rs:155-223 | under directory interference, an entry disappears by a step of a call only by a rename, as a regular file whose bytes are the expected ones, or as the call's own unpublished temporary |
| `AnchoredFs.NoCallReplacesAnEntry` | crates/memcore/src/anchored_fs.rs:105-196 | no step of any call rebinds an existing name to another object |
| `AnchoredFs.UnlinkedBytes` | crates/memcore/src/anchored_fs.rs:168-180 | in every run with in-place writers, the unlinked bytes are the expected ones exactly when no step rewrote the file between its opening and its unlink, or the last one that did left those bytes |
| `AnchoredFs.InPlaceWriterDefeatsExactness` | crates/memcore/src/anchored_fs.rs:216-222 | a run with one in-place write in which a file that never held the expected bytes is read as them and unlinked |
| `AnchoredFs.CapturedObjectFate` | crates/memcore/src/anchored_fs.rs:155-196 | in every run a captured object is still under the captured name, was put back under its own unoccupied name, or was unlinked as an exact match |
| `AnchoredFs.PutBackStep` | crates/memcore/src/anchored_fs.rs:181-195 | in every interleaving the step after an inspection that did not match, or failed, puts the entry back under its own name, unless that name is taken or the rename fails: then nothing changes |
| `AnchoredFs.PreservedOnlyWhenBlocked` | crates/memcore/src/anchored_fs.rs:181-195 | in every run a removal ends with a preserved entry only by a step that found the name taken or whose own rename failed |
| `AnchoredFs.InspectionFailsOnlyByFault` | crates/memcore/src/anchored_fs.rs:198-223 | in every run an inspection fails only by a step that fails, or when the bound on its reads is used up |
| `AnchoredFs.NoPartialContentsVisible` | crates/memcore/src/anchored_fs.rs:105-153 | in every run no name but the creator's own temporary shows an unpublished file, and without in-place writers none shows anything but the complete contents |
| `AnchoredFs.AtMostOneWinner` | crates/memcore/src/anchored_fs.rs:105-153 | with in-place writers or not, of any number of concurrent creates of one name that nobody removes at most one wins, and the name then holds the file that winner made; without in-place writers it has the winner's bytes |
| `AnchoredFs.PublishedBytes` | crates/memcore/src/anchored_fs.rs:105-153 | in every run, with in-place writers or not, a file is published with its complete contents, and later has them exactly when no step rewrote it since, or the last one that did left those bytes |
| `AnchoredFs.Publication` | crates/memcore/src/anchored_fs.rs:128-153 | every winner of every run published at one of its steps |
| `AnchoredFs.WinnerBytes` | crates/memcore/src/anchored_fs.rs:105-153 | a name nobody removes holds its winner's file ever after, with the winner's bytes exactly on that condition |
| `AnchoredFs.FinishedCreateLeavesNoTemporary` | crates/memcore/src/anchored_fs.rs:128-153 | a finished create leaves its temporary behind only if its own unlink failed |
| `AnchoredFs.LeftoverHadUnlinkFault` | crates/memcore/src/anchored_fs.rs:136-151 | in every run a finished create whose temporary is still there failed at its own step that unlinks it |
| `AnchoredFs.InvalidNameIff` | crates/memcore/src/anchored_fs.rs:288-301 | a call is refused for its name, with nothing touched, exactly when that is not one ordinary path component |
| `AnchoredFs.AnchoredDirectory.RenameNoReplaceAt` | crates/memcore/src/anchored_fs.rs:324-345 | moves an entry to a free name, or reports that the name is taken and changes nothing |
| `AnchoredFs.AnchoredDirectory.CreateFileExclusive` | crates/memcore/src/anchored_fs.rs:105-153 | under any interleaved environment ends in the state and outcome of the create program |
| `AnchoredFs.AnchoredDirectory.RemoveFileIfExact` | crates/memcore/src/anchored_fs.rs:155-196 | under any interleaved environment ends in the state and outcome of the remove program |
| `AnchoredFs.AnchoredDirectory.CapturedFileMatches` | crates/memcore/src/anchored_fs.rs:198-223 | opening and reading under any interleaved environment leads to the verdict of the remove program |
| `AnchoredFs.AnchoredDirectory.ReadToEnd` | crates/memcore/src/anchored_fs.rs:220-222 | reads of the file as it is at each moment, up to its end, lead to the verdict of the remove program |
| `AnchoredFs.DriveIsARun` | crates/memcore/src/anchored_fs.rs:105-223 | every execution of a method, beside any number of other calls and the environment, is a run of the concurrent system, so the theorems about runs apply to it |
| `AnchoredFs.RemoveAlone` | crates/memcore/src/anchored_fs.rs:155-196 | without interference and for every pattern of faults: the exact outcome and directory of a removal; the entry stays under its captured name only when the step that acts on it fails |
| `AnchoredFs.FailedInspectionRestores` | crates/memcore/src/anchored_fs.rs:186-195 | when only the inspection fails the directory ends as it began and the error is returned |
| `AnchoredFs.CreateAlone` | crates/memcore/src/anchored_fs.rs:105-153 | without interference and for every pattern of faults: the exact outcome and directory of a creation |
| `AnchoredFs.QuietRemove` | crates/memcore/src/anchored_fs.rs:155-196 | undisturbed, and with its read not cut off, removal deletes exactly a matching regular file and otherwise leaves the directory as it was |
| `AnchoredFs.QuietCreate` | crates/memcore/src/anchored_fs.rs:105-153 | undisturbed, creation binds an absent name to the whole contents and never touches a taken one |
| `Migration.FoldKeepsEveryone` | scripts/migrate_antigravity_split.py:58-66 | the legacy persons fold keeps every entity in order, loses nobody, invents nobody and adds no case-insensitive duplicate |
| `Migration.FoldedMeans` | scripts/migrate_antigravity_split.py:58-66 | the fold appends, in their order, exactly the persons whose name is not there yet but for its case |
| `Migration.PreparedIff` | scripts/migrate_antigravity_split.py:177-191 | a row is refused exactly when it has persons, the destination has no such column, and one of the two lists is missing or unreadable |
| `Migration.PreparedKeeps` | scripts/migrate_antigravity_split.py:177-191 | what is inserted has every column of the row unchanged, but for a folded persons column, whose people are then among the decoded entities |
| `Migration.MemorySettlesIff` | scripts/migrate_antigravity_split.py:194-221 | a memory settles exactly when the table has its columns and the row under its id has its values, or there is none, it carries no reserved references, and is accepted and stored unaltered |
| `Migration.EdgeSettlesIff` | scripts/migrate_antigravity_split.py:194-221 | the same for an edge under its three-part key, without the rule about references |
| `Migration.Settled` | scripts/migrate_antigravity_split.py:194-221 | an accepted write leaves a row that carries every source field, and never alters a row that was already there |
| `Migration.WrittenTwice` | scripts/migrate_antigravity_split.py:286-307 | writing the same rows, edges and projections again is never refused and changes nothing |
| `Migration.NoRowIsEverLost` | scripts/migrate_antigravity_split.py:286-322 | at every crash point a selected row is in the source unchanged or in its destination with all fields as prepared |
| `Migration.NoEdgeIsEverLost` | scripts/migrate_antigravity_split.py:157-167 | at every crash point an edge of a moved row is in the source or field for field in every destination that received an endpoint |
| `Migration.SourceShrinksLast` | scripts/migrate_antigravity_split.py:465-478 | the source changes only when every destination holds its final contents, and then loses exactly the moved rows and their edges |
| `Migration.DestinationsOnlyGain` | scripts/migrate_antigravity_split.py:286-307 | a destination keeps all it had and gains only selected rows and edges that touch them |
| `Migration.RerunConverges` | scripts/migrate_antigravity_split.py:453-478 | stopping after any prefix of commits and running again ends exactly like an uninterrupted run |
| `Migration.AnyNumberOfCrashesConverges` | scripts/migrate_antigravity_split.py:453-478 | the same after any number of interrupted invocations, each with its own plan order |
| `Migration.RowsSurviveCrashes` | scripts/migrate_antigravity_split.py:286-322 | over any number of interrupted invocations a selected row is in the source as it was or with all prepared fields in its destination |
| `Migration.EdgesSurviveCrashes` | scripts/migrate_antigravity_split.py:157-167 | the same for every edge of a selected row |
| `Migration.EveryNameSurvives` | scripts/migrate_antigravity_split.py:177-191 | over any number of interrupted invocations each row the classifier sends to a project is in the source as it was, or in that project with every column as it was and every person among the entities if it has no persons column |
| `Migration.EveryEdgeSurvives` | scripts/migrate_antigravity_split.py:157-167 | the same for every edge at either end of such a row |
| `Migration.OthersStay` | scripts/migrate_antigravity_split.py:407-423 | a row the classifier keeps, or whose project is retained, stays in the source unchanged over any such history |
| `Migration.CompleteMoves` | scripts/migrate_antigravity_split.py:465-478 | a complete move leaves such a row in its project only, and no edge at it in the source |
| `Migration.OneRowRefusesEverything` | scripts/migrate_antigravity_split.py:325-337 | one row that cannot be moved, for the shape of a database, a missing destination or a refused write, refuses the whole move with nothing changed |
| `Migration.ConflictRefusesEverything` | scripts/migrate_antigravity_split.py:194-221 | another row under a selected id in any destination refuses the whole move with every database unchanged |
| `Migration.RefusedIffSomeWriteFails` | scripts/migrate_antigravity_split.py:325-337 | at no point of the invocation does any database change exactly when some rehearsed write would fail |
| `Migration.LastCommitCompletes` | scripts/migrate_antigravity_split.py:465-478 | once the source has committed the world is the one an uninterrupted run leaves |
| `Migration.NothingLeftToMove` | scripts/migrate_antigravity_split.py:408-423 | after a complete move classification selects nothing |
| `Migration.Database.InsertRecord` | scripts/migrate_antigravity_split.py:177-221 | one row settles as it would have at the start, with every value kept, or is refused with nothing changed |
| `Migration.Database.InsertMemories` | scripts/migrate_antigravity_split.py:287-288 | succeeds exactly when every row settles, and then the image is the old one overlaid with the settled rows |
| `Migration.Database.InsertEdges` | scripts/migrate_antigravity_split.py:289-290 | the same for edges under their three-part key |
| `Migration.Database.Reproject` | scripts/migrate_antigravity_split.py:292-307 | an FTS table gets exactly the projections of the stored rows of the moved ids, other entries stay |
| `Migration.ProjectionMeans` | scripts/migrate_antigravity_split.py:291-306 | which column each field of an FTS entry comes from, which of them go through the terms function, and when there is no entry |
| `Migration.WrittenEntries` | scripts/migrate_antigravity_split.py:300-306 | after a write each moved id has exactly the entry of its stored row, and every other entry is as it was |
| `Migration.CleanedMeans` | scripts/migrate_antigravity_split.py:310-322 | exactly the moved rows and the edges at them are gone; every other row, edge and entry of a row is as it was |
| `Migration.Database.WriteDestination` | scripts/migrate_antigravity_split.py:286-307 | succeeds exactly when the write is possible, and then the image is the written one |
| `Migration.Database.RehearseWrite` | scripts/migrate_antigravity_split.py:325-337 | answers whether the write would succeed and leaves the image as it was |
| `Migration.Database.CleanupSource` | scripts/migrate_antigravity_split.py:310-322 | deletes the moved rows, every edge touching them and every index entry without a row |
| `Migration.Database.Plan` | scripts/migrate_antigravity_split.py:407-423 | the plan holds exactly the selected ids; each counter counts exactly the rows the classifier keeps, those of retained projects and those without an id, and they account for every row |
| `Migration.Migrate` | scripts/migrate_antigravity_split.py:405-482 | whatever happens, verdict and databases are those of the protocol stopped after the given number of commits |
| `Sql.GlobPrefix` | crates/memcore/src/namespace.rs:81-92 | `lit*` matches exactly the strings that start with `lit` |
| `Sql.GlobSuffix` | crates/memcore/src/namespace.rs:111-123 | `*lit` matches exactly the strings that end with `lit` |
| `Sql.GlobInfix` | crates/memcore/src/namespace.rs:111-123 | `*lit*` matches exactly the strings that contain `lit` |
| `Sql.LikePrefix` | crates/memcore/src/namespace.rs:383-394 | `lit%` matches exactly the strings that start with `lit` up to ASCII case |
| `Sql.PositionFinds` | crates/memcore/src/namespace.rs:111-123 | `instr` is zero exactly when the needle does not occur |
| `Namespace.ReservedIdIsPrefix` | crates/memcore/src/namespace.rs:16-19 | slicing an id by bytes and comparing without case finds the same prefix as `lower(id) GLOB` |
| `Namespace.UserFacingWikiAgrees` | crates/memcore/src/namespace.rs:147-164 | for every row, both qualifications and both recall-cache settings the SQL predicate evaluates without error, never to NULL, and to true exactly when the classifier accepts |
| `Namespace.UserFacingWikiSqlMirrorsRust` | crates/memcore/src/namespace.rs:81-164 | the same with the literal names of the store |
| `Namespace.UserFacingWikiMeans` | crates/memcore/src/namespace.rs:81-164 | the SQL predicate shows a row exactly when it is no log entry, maintenance operation or anchor and, unless asked for, not of the recall cache, each condition spelled out |
| `Namespace.NamesAreSpelled` | crates/memcore/src/namespace.rs:8-9 | the names of the store as the queries spell them |
| `Namespace.DocsValueMeans` | crates/memcore/src/namespace.rs:383-440 | the guarded docs disjunction never errs or is NULL on well-formed metadata and is true exactly on the docs signals with folded path |
| `Namespace.MalformedMetadataErrs` | crates/memcore/src/namespace.rs:383-440 | on malformed metadata the clause is an SQL error unless an earlier term made it true, and never selects the row as memory |
| `Namespace.SurfacesPartition` | crates/memcore/src/namespace.rs:429-446 | without a surface every row passes; no row is in both surfaces, also with a NULL domain, and every row is in one, except exactly where the query fails: on malformed metadata without another docs signal |
| `Namespace.SurfaceAgreesExactly` | crates/memcore/src/namespace.rs:347-440 | the clause and the classifier disagree exactly on a wiki path in foreign case with no other docs signal |
| `Namespace.SurfaceSqlMirrorsRust` | crates/memcore/src/namespace.rs:347-440 | for every normalized path the clause of a surface selects exactly the rows of that surface |
| `Namespace.ForeignCaseDisagrees` | crates/memcore/src/namespace.rs:383-394 | the wiki path with a capital, as nobody normalized it, is docs for the SQL and memory for the classifier |
| `Namespace.ForeignCaseExample` | crates/memcore/src/namespace.rs:383-394 | the same with the names of the store |
| `ExactEntity.Validate` | crates/memcore/src/exact_entity.rs:281-374 | accepts exactly the requests with usable budgets, non-blank values, an absolute prefix, consistent rules and a total size within the request budget |
| `ExactEntity.ChargeAll` | crates/memcore/src/exact_entity.rs:317-330 | accepts a list exactly when no value is blank and the sum fits |
| `ExactEntity.EligibleIffVisible` | crates/memcore/src/exact_entity.rs:665-760 | under either tolerance a row is admitted exactly when it is visible, whatever the order of the checks |
| `ExactEntity.ReadRefinesFilterSortTake` | crates/memcore/src/exact_entity.rs:493-604 | a complete read returns every visible row in id order, a limited one exactly the first of them while others are left, any other status none |
| `ExactEntity.ReadFindsTheSought` | crates/memcore/src/exact_entity.rs:493-604 | the same in terms of the request, the instant and the rows of the table alone: domain, archive, prefix, role, aliases, validity window, supersession and namespace |
| `ExactEntity.UnderPrefixMeans` | crates/memcore/src/exact_entity.rs:536-546 | a path is under a prefix exactly when, up to the prefix's trailing slashes, it begins like it and then ends or goes on with a slash |
| `ExactEntity.FinishesIff` | crates/memcore/src/exact_entity.rs:493-604 | without faults a read finishes exactly when fewer rows are in scope than may be looked at, each fits the row budget and is not refused, their octets fit, and the first sought rows fit one by one and in total |
| `ExactEntity.LimitAtCount` | crates/memcore/src/exact_entity.rs:516-519 | the budget of rows is named once as many rows as it allows have passed and it is used up |
| `ExactEntity.LimitAtRow` | crates/memcore/src/exact_entity.rs:524-533 | the first row that does not fit names the budget it exceeds, its key before its projection |
| `ExactEntity.LimitAtHydration` | crates/memcore/src/exact_entity.rs:573-603 | after a finished scan the first sought row that is too long, too much or not to be had decides the answer |
| `ExactEntity.RefusedAtRow` | crates/memcore/src/exact_entity.rs:169-184 | the first refused row ends the read with its reason, its id cut to 128 characters and its position |
| `ExactEntity.SkippedMeans` | crates/memcore/src/exact_entity.rs:697-743 | what the two kinds of skipped rows are, and that only a tolerant read skips |
| `ExactEntity.RefusedMeans` | crates/memcore/src/exact_entity.rs:665-760 | every reason to refuse a row and exactly when it is given |
| `ExactEntity.FaultBeforeScan` | crates/memcore/src/exact_entity.rs:415-470 | the first database failure before the scan becomes an error, the VM status or the length status |
| `ExactEntity.FaultAtStep` | crates/memcore/src/exact_entity.rs:520-522 | a database failure at the next row does so too |
| `ExactEntity.FaultAtProjection` | crates/memcore/src/exact_entity.rs:649-655 | and one at the projection of an admissible row |
| `ExactEntity.StoreMismatchIff` | crates/memcore/src/exact_entity.rs:385-393 | a read is refused for its store exactly when label, profile, partition or a given physical identity differ |
| `ExactEntity.BadInstantIff` | crates/memcore/src/exact_entity.rs:447-450 | without faults it is refused for its instant exactly when one is asked for that cannot be read |
| `ExactEntity.ReadIgnoresVisitingOrder` | crates/memcore/src/exact_entity.rs:493-604 | two finished reads of the same rows give the same answer, in whatever order the database visits them |
| `ExactEntity.StrictSuccessIsTolerantSuccess` | crates/memcore/src/exact_entity.rs:678-760 | whenever the strict read answers, the tolerant read gives the same status, entries and accounting, with nothing skipped |
| `ExactEntity.NoBrokenWindowReturned` | crates/memcore/src/exact_entity.rs:678-760 | no read returns a row with an inverted, an active zero-width or a boundary-less superseded window |
| `ExactEntity.UnstartedStatuses` | crates/memcore/src/exact_entity.rs:405-444 | whatever else happens, an answer says that a read is nested exactly when another one is in progress, and that the hook is unavailable exactly when its probe stayed silent |
| `ExactEntity.LedgerCounts` | crates/memcore/src/exact_entity.rs:251-279 | the counters are exactly the numbers of rows of each class, and every retained id is the id of a row of that class |
| `ExactEntity.LedgerCaps` | crates/memcore/src/exact_entity.rs:251-279 | both diagnostic caps hold, and the truncation flag is set exactly when some counted skip has no retained id |
| `ExactEntity.AllSkipsNamed` | crates/memcore/src/exact_entity.rs:251-279 | with room for all of them every skipped row is named and nothing is marked as cut short |
| `ExactEntity.ClassesDisjoint` | crates/memcore/src/exact_entity.rs:482-488 | no row is counted in two classes, and none is left over on a scan without refusals |
| `ExactEntity.FilteredIsExact` | crates/memcore/src/exact_entity.rs:482-488 | on a completed scan the closing subtraction is exactly the number of filtered rows |
| `ExactEntity.ReadResult.RecordValiditySkip` | crates/memcore/src/exact_entity.rs:251-279 | counts one skip in its class and names it exactly when both caps leave room, else marks the diagnosis as cut short |
| `ExactEntity.ReadResult.ChargeAdmission` | crates/memcore/src/exact_entity.rs:186-194 | charges within both byte ceilings or names the one that stops the scan |
| `ExactEntity.MemoryStore.ExactAdmissionProjection` | crates/memcore/src/exact_entity.rs:606-761 | one row's bytes, verdict and accounting, or the limit or error that stops the scan |
| `ExactEntity.MemoryStore.ScanRows` | crates/memcore/src/exact_entity.rs:515-564 | ends where the first stop is, with exactly the admitted rows, byte total and ledger of the rows before it |
| `ExactEntity.MemoryStore.HydrateOne` | crates/memcore/src/exact_entity.rs:576-601 | one row charged and fetched; a row over the row budget, or over what is left of the total, is named and clears the list |
| `ExactEntity.MemoryStore.Hydrate` | crates/memcore/src/exact_entity.rs:573-603 | fetches all chosen rows, or clears what was fetched and names the limit |
| `ExactEntity.MemoryStore.ReadExactEntities` | crates/memcore/src/exact_entity.rs:381-491 | whatever stops it: the specified answer, closed accounting, byte totals within budget and, when finished, exactly those of the rows looked at and returned, and the read flag put back |
| `PrivatePartition.RunInv` | crates/memcore/src/private_partition.rs:454-582 | the sealing invariant holds in every state of every sequence of openings, writes, failed or successful seals and crashes |
| `PrivatePartition.CleanMeansSealed` | crates/memcore/src/private_partition.rs:555-569 | a clean handle's sealed file opens under its key and identity to the live image apart from receipt update stamps |
| `PrivatePartition.DurableMeansSealed` | crates/memcore/src/private_partition.rs:555-569 | a receipt durable in the live image, by row or by event, is durable in the sealed file |
| `PrivatePartition.DurableForever` | crates/memcore/src/private_partition.rs:555-569 | once durable in a live image, a receipt is in every later sealed file, whatever fails or crashes |
| `PrivatePartition.ReadersNeverSeal` | crates/memcore/src/private_partition.rs:555-582 | while no open handle has Write, the sealed file does not change |
| `PrivatePartition.HalfMarkedIsWedged` | crates/memcore/src/private_partition.rs:913-930 | an event updated without its row leaves a receipt that can no longer be marked |
| `PrivatePartition.WedgeIsReachable` | crates/memcore/src/private_partition.rs:913-930 | opening, one supersession and one seal that fails between the two updates is a run that ends so |
| `PrivatePartition.WedgedUntilDropped` | crates/memcore/src/store/immutable_supersession/receipts.rs:77-117 | from then on nothing that handle does reaches the sealed file |
| `PrivatePartition.ReopeningRecovers` | crates/memcore/src/private_partition.rs:472-477 | in every run the first handle opened after that has nothing pending and can be sealed again |
| `PrivatePartition.StuckIffHalfMarked` | crates/memcore/src/private_partition.rs:893-932 | in every run a handle opened sound can be sealed exactly when none of its seals since then failed between the event and the row of a receipt, which is exactly when no receipt of its live image is half marked |
| `PrivatePartition.EveryHandleOpensSound` | crates/memcore/src/private_partition.rs:454-489 | over every run that starts without a file, or with one whose receipts parse and can be marked, every handle is sound when it opens |
| `PrivatePartition.SoundStep` | crates/memcore/src/private_partition.rs:520-569 | one insert, transaction or seal of a sound handle leaves it sound, or reseals and half marks a receipt |
| `PrivatePartition.OpenedCleanIffStamped` | crates/memcore/src/private_partition.rs:472-489 | a freshly opened handle equals its file exactly when the file carried the identity stamp |
| `PrivatePartition.ReceiptsOnlyAdd` | crates/memcore/src/store/immutable_supersession/receipts.rs:119-194 | a transaction keeps every stored receipt and event and adds only pending ones |
| `PrivatePartition.InsertedMeans` | crates/memcore/src/db/memory_crud.rs:2308-2316 | every memory keeps its text, the key is there, with the new text only if it was absent, and nothing else changes |
| `PrivatePartition.MemoriesStay` | crates/memcore/src/private_partition.rs:520-569 | in every run, as long as a handle runs no transaction, every memory it has keeps its text |
| `PrivatePartition.TransactedMeans` | crates/memcore/src/private_partition.rs:534-545 | a transaction succeeds exactly when its receipts conflict neither with what is stored nor with each other, and then overwrites exactly the memories it writes and stores exactly its receipts and their events |
| `PrivatePartition.TransactionMeans` | crates/memcore/src/private_partition.rs:534-545 | the same of every transaction of a run |
| `PrivatePartition.SealedMeans` | crates/memcore/src/private_partition.rs:905-928 | in what is sealed exactly the receipts of this partition that were not durable are durable, in rows and events; nothing else differs |
| `PrivatePartition.MarkableMeans` | crates/memcore/src/private_partition.rs:901-928 | an image can be sealed exactly when every stored receipt parses and each undurable one of this partition is at version one with an event that still shows it so |
| `PrivatePartition.EffectiveCapabilities` | crates/memcore/src/private_partition.rs:261-274 | an admitted request gets exactly what it asked for, which was all granted; nobody else gets anything |
| `PrivatePartition.Connection.MarkReceiptsSealed` | crates/memcore/src/private_partition.rs:893-932 | marks events then rows of pending receipts up to the failing step; without faults succeeds exactly when every stored receipt parses and every pending one can be marked; a failing row update leaves its event marked |
| `PrivatePartition.Partition.Open` | crates/memcore/src/private_partition.rs:454-489 | without faults succeeds exactly for an admitted request with a readable file under its own key and identity, or with Write and no file; the handle starts with what the file holds, or empty and stamped |
| `PrivatePartition.Partition.InsertIfAbsent` | crates/memcore/src/private_partition.rs:520-528 | with Write only: every memory keeps its text, the key is there, with the new text only if it was absent, and the handle is dirty afterwards |
| `PrivatePartition.Partition.Transact` | crates/memcore/src/private_partition.rs:534-545 | all or nothing, with Write only, exactly when nothing conflicts; overwrites exactly what it writes and stores its receipts; dirty exactly when it was or something changed |
| `PrivatePartition.Partition.ExportSealed` | crates/memcore/src/private_partition.rs:548-553 | needs Export, changes nothing, and unseals to the fully marked image |
| `PrivatePartition.Partition.PersistSealed` | crates/memcore/src/private_partition.rs:772-802 | leaves the old file or the complete new one, the latter also when a later sync fails |
| `PrivatePartition.Partition.Persist` | crates/memcore/src/private_partition.rs:555-569 | a step of the system wherever it fails; without faults succeeds exactly when clean, or writable with every stored receipt parsing and every pending one markable; then the file holds the live image fully marked |
| `NearDup.NearDuplicateRawPairs` | crates/memcore/src/near_dup.rs:52-102 | for every input and threshold returns the same sequence as the nested loop through the set similarity |
| `NearDup.NaivePairsMeans` | crates/memcore/src/near_dup.rs:44-66 | a pair is returned exactly when both rows are raw, in order, within the first 500 raw rows, with the true similarity at the threshold |
| `NearDup.PairsMean` | crates/memcore/src/near_dup.rs:26-66 | the same in terms of the rows alone: tier up to case, fewer than 500 raw rows before, and the share of common tokens times the size of the union being the size of the intersection |
| `NearDup.PairsInOrder` | crates/memcore/src/near_dup.rs:81-101 | the pairs come row by row, each once |
| `NearDup.CountsGiveJaccard` | crates/memcore/src/near_dup.rs:26-36 | the cardinality formula, also on empty sets, is the Jaccard similarity |
| `NearDup.BuildPostings` | crates/memcore/src/near_dup.rs:74-79 | the posting of a token is the ascending list of rows that contain it |
| `NearDup.CountRow` | crates/memcore/src/near_dup.rs:84-91 | after counting one row each later counter is the size of the intersection |
| `NearDup.PairsAfter` | crates/memcore/src/near_dup.rs:92-99 | appends exactly the pairs of one row |
| `CivilDate.CivilIsValid` | crates/tachi-bootstrap/build.rs:79-95 | every day number names a valid date of the proleptic Gregorian calendar |
| `CivilDate.DaysRoundTrip` | crates/tachi-bootstrap/build.rs:84-92 | the inverse day count returns the day number |
| `CivilDate.DateRoundTrip` | crates/tachi-bootstrap/build.rs:84-92 | every valid date comes back from its day number |
| `CivilDate.OnlyCalendar` | crates/tachi-bootstrap/build.rs:84-92 | any numbering of days by valid dates that starts at 1970-01-01 and follows the calendar successor, in both directions, is this one |
| `CivilDate.ConsecutiveDays` | crates/tachi-bootstrap/build.rs:84-92 | each day is followed by its calendar successor |
| `CivilDate.YearOfEraFinds` | crates/tachi-bootstrap/build.rs:87-88 | the division formula finds the year of the era that contains the day |
| `CivilDate.EarlierIffFewerDays` | crates/tachi-bootstrap/build.rs:84-92 | dates and day numbers are in the same order |
| `CivilDate.MomentRoundTrip` | crates/tachi-bootstrap/build.rs:79-95 | every timestamp is a valid date and time that counts back to it |
| `CivilDate.NoOverflow` | crates/tachi-bootstrap/build.rs:79-95 | for every 64-bit timestamp every intermediate value fits in 64 bits |
| `CivilDate.StringOrderIsTimeOrder` | crates/tachi-bootstrap/build.rs:94-94 | for years 0000 to 9999 the strings are in the order of the timestamps |
| `CivilDate.FormatReadsBack` | crates/tachi-bootstrap/build.rs:79-95 | for every timestamp, of any year, the separators stand where they belong and the fields, read as decimal numbers, are the date and time and count back to the timestamp |
| `CivilDate.YearField` | crates/tachi-bootstrap/build.rs:94-94 | years 0000 to 9999 have four digits, so twenty characters in all; any other year is signed if negative and padded only up to four characters |
| `Installer.Preflight` | scripts/install_legacy_binaries.py:27-50 | accepts exactly the lists whose targets are safe, have a directory above them and do not overlap |
| `Installer.AcceptedMeans` | scripts/install_legacy_binaries.py:27-50 | accepted targets are absent, files or links to no directory, have a directory as nearest existing ancestor, and pairwise differ, up to folding, at a level both have and are not one entry |
| `Installer.AcceptedTargetsApart` | scripts/install_legacy_binaries.py:34-45 | no accepted target is, or lies above, another one |
| `Installer.StageOne` | scripts/install_legacy_binaries.py:104-128 | stages one target and touches nothing else but missing parents, up to the first step that fails |
| `Installer.ReplaceOne` | scripts/install_legacy_binaries.py:132-138 | moves the old entry to its backup name and the stage to the target, up to the first step that fails |
| `Installer.RollBack` | scripts/install_legacy_binaries.py:145-157 | puts every noted entry back in reverse order; one that cannot be put back stays under its backup name |
| `Installer.SweepStages` | scripts/install_legacy_binaries.py:158-160 | removes the listed stages that are still there up to the first one that cannot be removed, and touches nothing else |
| `Installer.Install` | scripts/install_legacy_binaries.py:100-160 | success holds every stage in place with the old entries under their backups; after a failure with working undo the file map is the initial one, apart from created parents, exactly outside the two windows; no entry is ever lost; it stops at the first failing step of the program, and without faults nowhere |
| `Installer.RestoredIff` | scripts/install_legacy_binaries.py:104-160 | what each failure leaves, seen from the file map: restored exactly when the failing step is no window of a job with something to lose there |
| `Installer.WindowsAreReached` | scripts/install_legacy_binaries.py:104-138 | each window is where an installation stops whose only fault lies there; without faults nothing stops |
| `Installer.StopsAtFirstFault` | scripts/install_legacy_binaries.py:104-144 | an installation stops exactly at the first step, in the order staging, recheck, replacement, probe, that fails: every step can stop it and nothing else does |
| `Installer.UndoneMeansRestored` | scripts/install_legacy_binaries.py:145-160 | with every job untouched the file map is the initial one apart from created parent directories |
| `CanonicalJson.CanonicalIdempotent` | crates/memcore/src/canonical_digest.rs:30-42 | the canonical form of a canonical form is itself |
| `CanonicalJson.CanonicalEqDecides` | crates/memcore/src/canonical_digest.rs:58-60 | the equality test decides exactly equality up to member order at every depth, arrays in order |
| `CanonicalJson.CanonicalRepresents` | crates/memcore/src/canonical_digest.rs:30-42 | the canonical form has the same content and is sorted at every depth |
| `CanonicalJson.SortedMeans` | crates/memcore/src/canonical_digest.rs:33-38 | sorting keeps exactly the members, in strictly ascending order of key |
| `CanonicalJson.ArrayOrderCounts` | crates/memcore/src/canonical_digest.rs:39-39 | swapping two array elements is seen exactly when their contents differ |
| `BraceScanner.BalancedJson` | tools/recall-eval/mcp_client.py:49-75 | returns the shortest beginning that closes outside strings, and nothing exactly when there is none |
| `BraceScanner.ClosesMeans` | tools/recall-eval/mcp_client.py:56-74 | a text closes exactly when it ends in a brace outside strings and has as many opening as closing braces there, with quotes and backslashes counted |
| `BraceScanner.PrintIsNeutral` | tools/recall-eval/mcp_client.py:56-74 | reading any printed JSON value, with any white space, leaves string mode and depth as they were and never lower in between |
| `BraceScanner.PrintedObjectIsFound` | tools/recall-eval/mcp_client.py:49-75 | for every printed object, with any text before and after it, the scan from its brace returns exactly it |
| `BraceScanner.ParseSseEnvelope` | tools/recall-eval/mcp_client.py:78-89 | takes the first marker or else the first brace, and reports a missing or an unterminated object |
| `BraceScanner.PrintedEnvelopeIsFound` | tools/recall-eval/mcp_client.py:78-89 | after text without braces the envelope is exactly the printed object |
| `PathRouter.NormalizePath` | crates/memcore/src/path_router.rs:88-142 | the character loop computes the specified normal form |
| `PathRouter.NormalizedIsNormal` | crates/memcore/src/path_router.rs:88-142 | every result has a leading slash, no double slash, no trailing slash except root and a lower-case first segment |
| `PathRouter.SecondApplication` | crates/memcore/src/path_router.rs:88-142 | a second application changes a result exactly when it ends in white space, and then shortens it |
| `PathRouter.IdempotentIffNoSpacedTail` | crates/memcore/src/path_router.rs:88-142 | idempotence holds exactly for inputs without a spaced tail |
| `PathRouter.NotIdempotent` | crates/memcore/src/path_router.rs:88-142 | it fails on every lower-case name followed by a space and a slash |
| `PathRouter.NotIdempotentExample` | crates/memcore/src/path_router.rs:88-142 | it fails on `/a /` |
| `PathRouter.SettledIsFixed` | crates/memcore/src/path_router.rs:88-142 | repeated application reaches a fixed point |
| `PathRouter.NormalizedShape` | crates/memcore/src/path_router.rs:88-142 | the result in closed form, for any segmentation of the input |
| `PathRouter.LeadAndCaseForgotten` | crates/memcore/src/path_router.rs:88-142 | extra or missing leading slashes and first-segment case do not matter |
| `PathRouter.ExtraSlashForgotten` | crates/memcore/src/path_router.rs:88-142 | doubling any slash of any path does not matter |
| `PathRouter.OuterSpaceForgotten` | crates/memcore/src/path_router.rs:88-142 | white space around a path does not matter |
| `PathRouter.VerdictForgets` | crates/memcore/src/path_router.rs:183-253 | write verdicts do not depend on any of these |
| `PathRouter.WriteVerdictMeans` | crates/memcore/src/path_router.rs:183-253 | the retired category and namespace are refused for every label, a wiki path for every label but the wiki's unless crossing is allowed, and nothing else is |
| `PathRouter.RouteMeans` | crates/memcore/src/path_router.rs:145-163 | which paths only the wiki may hold and which any database may |
| `PathRouter.WikiWriteRefused` | crates/memcore/src/path_router.rs:183-216 | of the writes that settle in `/wiki` exactly those to another database without leave to cross are refused, unless two normalizations leave white space behind the name |
| `PathRouter.WikiPathSlipsExample` | crates/memcore/src/path_router.rs:183-216 | such a path, accepted for every label without leave to cross |
| `PathRouter.RetiredPathSlips` | crates/memcore/src/path_router.rs:183-253 | of the writes that settle in `/sticky` with another category exactly those are accepted whose normalized path is `/sticky` with white space behind it |
| `PathRouter.SettlesButSlips` | crates/memcore/src/path_router.rs:88-142 | the same for any namespace: settled inside and normalized outside exactly when white space follows its name |
| `PathRouter.RetiredPathSlipsExample` | crates/memcore/src/path_router.rs:183-253 | the smallest such path is accepted for every label, across projects or not |

## Left out

- System calls, SQLite, AES-GCM, SHA-256 and Cargo are not modelled: they appear as directory steps, transactional maps, a seal that opens only under its own key and identity, an injective name, and faults at each step.
- Fresh names (UUIDs and temporary names) are taken to be unused and private to the call that made them; the environment does not link or write an unpublished temporary.
- A read of a captured file that never ends, because the file grows faster than it is read, is not modelled; every bound on the number of reads is.
- The schema validation, the marker lists of `classify`, the JSON codec, case folding and the tokenizer of the migration script are fixed functions or a yes/no answer of the host; of the codec only that decoding a list undoes encoding it is used, where the folded persons are read back.
- `RECALL_CACHE_SQL_WHERE`, which the source itself says is not the negation of the other form, and the classifiers for other namespaces would add only term-by-term members.
- `OR` and `AND` are evaluated left to right and stop at the first term that decides, also inside `COALESCE`, an order SQLite does not promise: the exact set of rows with malformed metadata on which the query fails (`Namespace.MalformedMetadataErrs`, `Namespace.SurfacesPartition`) rests on it; with well-formed metadata no term fails and the order does not matter.
- Metadata members are a map: a JSON document with a duplicated key, which the two sides may read differently, is not modelled.
- Case folding and white space are ASCII; Unicode normalisation in the installer's preflight is a parameter.
- In the exact-entity read the clock, timestamp normalisation, sandbox rules and namespace exclusion are parameters; the charged VM steps, the connection length limit and the drop guards are not modelled beyond a fault at any database call. Normalised timestamps are compared as strings, as the source does.
- The migration of an image's schema when a partition is opened, the in-memory test partition and path derivation are not modelled; transactions are given by the memories they write and the receipts they persist.
- Marking walks the pending receipts in any order; the source orders them by key.
- Similarities are exact rationals with the epsilon test: floating-point rounding is not modelled.
- `canonical_json_digest_hex`: the serialisation and its digest are not modelled.
- The envelope's text is characters, already decoded; parsing the extracted object is not modelled.
- Argument parsing, printing, network clients, report rendering, fixed tables and regular-expression tables are not modelled.
