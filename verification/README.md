# Verified model of the repository manager

The application stores scholarly works for several institutions: units hold
collections, collections hold items, items hold files (bitstreams). This project
models the parts of it whose correctness depends on whole histories or on several
functions at once, and proves what they promise.

`dafny verify dfyconfig.toml` checks everything.

## How it is laid out

Each topic has a module that says on values what the operations do and what holds
over all runs, and, where the application changes rows or objects step by step, a
class whose methods do it in the same steps and are proved equal to those
functions. In a class a database table is a field that holds a map; the object
store is a map from keys to contents.

| topic | values, laws and runs | step by step |
|---|---|---|
| element positions in profiles | `Positions` | `ProfileElements.Profile` |
| bundle positions of bitstreams | `BundlePositions` | `BundlePositions.ItemBitstreams` |
| the tree of units, and of collections | `Forest`, `RollUps` | `Units.UnitTable` |
| moving a unit to another institution | `Units`, `StorageMoves`, `Admission`, `Migration`, `Relocation` | `InstitutionMove`, over `Units.UnitTable`, `Repository.BitstreamTable` and `Migration.MetadataTables` |
| download reporting tables | `Calendar`, `DownloadTables` | `Reports.ReportingTables` |
| submitted and downloaded items by month | `MonthlySeries` | `Calendar.PadResults` |
| bitstreams and the object store | `StorageKeys`, `Storage`, `StorageEffects`, `StorageMoves`, `StorageRuns`, `Imports`, `Files`, `LostFiles` | `Repository.ObjectStore`, `Repository.BitstreamTable` |
| burial and exhumation | `Burial`, `Hierarchy` | `Hierarchy.Tables` |
| OAI-PMH 2.0 harvesting | `Tokens`, `Harvest` | `Tokens.ParseResumptionToken`, `Harvest.HarvestRecords`, `Harvest.HarvestSets`, `Arguments` |

`Text`, `Numbers`, `Lexicographic`, `Sets` and `Wrappers` hold what these share. Submission
profiles and metadata profiles run the same three callbacks, and collections the
same tree code as units (app/models/collection.rb:166-209 and 553-561), so one
model serves both. Clocks, query results that come from tables outside the model,
and the order in which a query returns tied rows are parameters or arbitrary
choices.

## What the proofs found

Where the code falls short of what one would expect of it, the model follows the
code, the law is proved with its exact condition, and a lemma shows the shortfall
on a concrete input.

* A rename does not move the stored object when the old filename is blank
  (app/models/bitstream.rb:136), so the key goes stale. `Storage.RenameKeepsGoodIff`
  says exactly when a rename keeps the storage invariant;
  `LostFiles.BlankNameLosesContent` is a history of eight steps in which one
  file's content is overwritten by another's.
* A file that is saved without a filename takes back the one it was created with
  (app/models/bitstream.rb:715-718), after the check that no other file of the item
  has it (830-838). Its object is then moved, over the other file's if both are in
  the same area. Such a rename is safe if and only if the original name is the
  current one, or the current one is not blank and either the original is free and
  the save completes or the file was never uploaded, or the current name is blank
  and the save is taken back (`Storage.RenameIsSafe`, `Storage.RenameKeepsGoodIff`);
  `LostFiles.NameTakenBackOverwrites` says what is lost, and
  `LostFiles.NoNameLosesContent` is a history of nine steps, all but the last of
  them careful, after which one content is gone.
* An import that fails takes its rows back and leaves the objects it has put, so it
  is harmless if and only if it has added no file (`Imports.BatchKeepsGoodIff`,
  `LostFiles.FailedImportStrands`). If the list of an item's files is not kept up to
  date while files are added (app/util/csv_importer.rb:342-349), an import that goes
  through is harmless if and only if no name that the item lacks comes twice
  (`Imports.UnlistedKeepsGoodIff`, `LostFiles.UnlistedImportOverwrites`).
* Saves, deletions and moves between institutions run in database transactions
  that do not cover the object store. When a move raises (app/models/unit.rb:339-404),
  rows are rolled back and the objects already moved are not; only the detachment
  of the root, made before the transaction, stands. The invariant survives a failed
  move if and only if no object had moved before the first statement that raised
  (`StorageMoves.RelocateKeepsGoodIff`). In `LostFiles.HalfMoveLosesContent` that
  statement is a file that was never uploaded.
* Other such statements are saves of metadata. The clone of a registered element
  keeps its URI, which is unique per institution (db/schema.rb:654), and gets a scope
  note that does not fit its column when the unit's title is long (db/schema.rb:643,
  `Admission.LongTitleRefused`). An ascribed element that equals another of its item,
  as merging two registered elements can make it (`Migration.MergeMakesTwins`), is
  deleted when the item is saved and then cannot be saved itself. A move goes through
  if and only if no visited record is refused or buried with something live in it, no
  item has two equal elements, every name that has to be entered comes with an unused
  URI and a note that fits, and every object is there (`Relocation.MoveGoesThroughIff`,
  `InstitutionMove.MoveTo`). `LostFiles.ClashingUriLosesContent` and
  `LostFiles.EqualElementsLoseContent` are moves of two items that fail on the second
  one's elements alone and leave the first one's content away from its key.
* A buried collection or unit with something live in it refuses every other save
  (`Burial.SaveRefusedIff`), so no unit above it can be moved. Exhuming a child unit
  leads there (`Burial.SaveRefusedReachable`), and so does exhuming an item that has a
  second collection (`Burial.CollectionRefusalReachable`).
* A subtree that is buried leaf by leaf comes back whole if and only if every
  collection in it had a live unit (`Hierarchy.SubtreeComesBackIff`); one with a
  child collection that has no unit does not (`Hierarchy.OrphanStaysBuried`).
* `Time.new` accepts February 31 and runs on into March, so the submitted-items
  series can start or end a month late while the downloads series does not. The
  two line up if and only if the start has a year and both days exist
  (`MonthlySeries.SeriesLineUpIff`; February 31 in `MonthlySeries.OverrunShiftsSeries`).
* Cloning a profile is exact if and only if the source's positions are distinct
  (`ProfileElements.DupIsExactIff`). Two tied rows are not copied, and no run of
  the callbacks leads to them (`ProfileElements.TiedRowsNotCopied`).
* A resumption token gives back its values if and only if none contains `|` or
  ends in `:` (`Tokens.TokenRoundTripIff`; such values in `Tokens.UncleanValuesLost`).
  An `until` with an ID spliced in after a bar makes the second page of a harvest
  repeat the first (`Harvest.SecondPageRepeats`).
* `exhume!` brings back the remembered reason if and only if there was none or it
  differs from the current one (`Burial.ReasonRestoredIff`, `Burial.ReasonLost`).
  After `bury!` it always does.

## Model

| member | source | states |
|---|---|---|
| Positions.CreateInserts | app/models/metadata_profile_element.rb:100-108 | from positions 0..n-1, the create shift at any p from 0 to n is insertion at index p of the list |
| Positions.UpdateMoves | app/models/metadata_profile_element.rb:114-133 | from positions 0..n-1, the range shift is removal of the element and insertion at index p |
| Positions.DestroyRemoves | app/models/metadata_profile_element.rb:139-149 | from positions 0..n-1, compaction after a deletion is removal from the list |
| Positions.UpdateKeepsOrder | app/models/submission_profile_element.rb:82-101 | with distinct positions, gaps or not, and any target p >= 0, an update leaves positions distinct, the element at p, and every other pair in its old order |
| Positions.CreateKeepsOrder | app/models/submission_profile_element.rb:68-76 | the same for a creation at any p >= 0 |
| Positions.DestroyCompacts | app/models/submission_profile_element.rb:107-117 | with distinct positions, a deletion leaves positions 0..n-1 in the order the rows had |
| Positions.RunRefinesList | app/models/metadata_profile_element.rb:96-149 | every run whose targets lie inside the list keeps the position column a listing 0..n-1 of exactly what the same run makes of a list |
| Positions.RunKeepsPositionsDistinct | app/models/submission_profile_element.rb:64-117 | every run, whatever its targets, keeps positions distinct and non-negative |
| Positions.DestroyRestoresContiguity | app/models/metadata_profile_element.rb:135-149 | after any run from an empty profile, gaps included, the next deletion restores positions 0..n-1 in the same order |
| ProfileElements.Profile.Create | app/models/metadata_profile_element.rb:100-108 | every row at or after the new position moves back by one, with gaps as without, and no other row changes; a repeated element or a negative position is refused and changes nothing |
| ProfileElements.Profile.UpdatePosition | app/models/metadata_profile_element.rb:114-133 | every other row between the old and the new position moves by one towards the old one, and no other row changes; a negative position or an unknown element is refused and changes nothing |
| ProfileElements.Profile.Destroy | app/models/metadata_profile_element.rb:139-149 | renumbers the remaining rows 0, 1, 2, ... in some order by old position, which is the destroy step when positions were distinct |
| ProfileElements.Profile.OrderByPosition | app/models/metadata_profile_element.rb:142-142 | lists every row once, positions never falling |
| ProfileElements.Profile.AddRequiredElements | app/models/submission_profile.rb:55-66 | the required elements that were missing come first, in label order, and every old element moves back by their number |
| ProfileElements.PrependLists | app/models/submission_profile.rb:55-66 | in list terms: the missing required elements, then the old list |
| ProfileElements.SortByLabel | app/models/submission_profile.rb:57-59 | every missing element once, no label after a greater one |
| ProfileElements.Profile.Dup | app/models/submission_profile.rb:82-90 | the clone is a new profile with the same elements at the same positions, and the source is unchanged |
| ProfileElements.TiedRowsNotCopied | app/models/metadata_profile.rb:97-105 | two rows at position 0 become two rows at 1 and 0, and no run of the callbacks from an empty profile leads to such rows |
| ProfileElements.DupIsExactIff | app/models/metadata_profile.rb:97-105 | creating the elements again in position order gives the same positions, gaps included, exactly when no two of them tie |
| BundlePositions.ItemBitstreams.Create | app/models/bitstream.rb:764-776 | shifts the rows at or after the position in this bundle only; an absent position shifts nothing; other bundles are untouched |
| BundlePositions.ItemBitstreams.UpdatePosition | app/models/bitstream.rb:782-798 | numbers the other rows of the bundle 0, 1, 2, ... in their order, leaving out the number of the moved row; other bundles are untouched; from contiguous positions it is the move that profiles make |
| BundlePositions.ItemBitstreams.Destroy | app/models/bitstream.rb:804-816 | numbers the bundle from 0 if the deleted row had a position, as profiles do, and leaves other bundles alone |
| BundlePositions.ItemBitstreams.OrderByPosition | app/models/bitstream.rb:786-789 | lists the given rows once each by position, absent positions last |
| BundlePositions.RenumberIsRangeShift | app/models/bitstream.rb:782-798 | from contiguous positions and for every p >= 0, past the end too, renumbering everyone else and shifting a range give the same positions |
| BundlePositions.RenumberIsCompaction | app/models/bitstream.rb:804-816 | renumbering after a deletion gives the positions that a profile would have |
| Forest.ReparentIff | app/models/unit.rb:538-546 | the parent check is exact: the new parent column is a forest if and only if the parent exists and is neither the unit nor one of its descendants |
| Forest.RunKeepsForest | app/models/unit.rb:524-546 | no run of creations, validated reparentings, detachments and guarded destroys leaves a cycle or a missing parent |
| Forest.ForestIsRanked | app/models/collection.rb:201-209 | a forest has a bounded measure that rises at every step to a parent, which is why the loop over parents ends |
| Forest.AncestorIffReaches | app/models/unit.rb:125-133 | the chain of parents holds exactly the other units from which a downward path leads here |
| Forest.DescendantIffAncestor | app/models/unit.rb:91-133 | v is below u if and only if u is among the parents of v |
| Forest.PathWalkMembers | app/models/unit.rb:93-104 | the depth-first walk lists exactly the downward paths from its start |
| Forest.PathWalkAscending | app/models/unit.rb:105-105 | depth-first with siblings by ID is the order of the breadcrumb arrays |
| Forest.PreorderNoRepeats | app/models/unit.rb:91-111 | the walk visits no unit twice |
| Forest.PreorderIsSubtree | app/models/unit.rb:91-111 | the walk starts with its root and lists the descendants, all of them, and the root no more |
| Forest.PreorderIsByPath | app/models/unit.rb:105-105 | of two units in the walk, the path from the root to the earlier one is the smaller array |
| Forest.DetachedAncestors | app/models/unit.rb:336-336 | once its root is detached, a subtree has no ancestors outside itself, and all other units keep theirs |
| RollUps.RollUpIsPreorderSum | app/models/unit.rb:441-455 | a unit and its flat set of descendants add up to the sum along the walk |
| RollUps.RollUpIsAdditive | app/models/unit.rb:441-455 | that total is the unit's own share plus the totals of its children, so the children's subtrees partition the descendants |
| Units.UnitTable.AllChildIds | app/models/unit.rb:91-111 | the preorder walk of the subtree without its root: siblings by ID, every unit before the ones below it |
| Units.UnitTable.RecursiveQuery | app/models/unit.rb:93-104 | level by level, the query yields exactly the downward paths from the unit, and ends |
| Units.QueryIsWalk | app/models/unit.rb:105-105 | sorting those paths as arrays gives the depth-first walk |
| Units.UnitTable.AllParents | app/models/unit.rb:125-133 | the parents from closest to farthest: the first is the unit's parent, each other the parent of the one before, and the last has none |
| Units.UnitTable.UpdateParent | app/models/unit.rb:538-546 | accepts a parent if and only if it exists and cannot be reached downwards from the unit, which is if and only if the result is a forest; changes nothing otherwise |
| Units.UnitTable.Destroy | app/models/unit.rb:524-532 | removes a unit, from all columns, if and only if no unit has it as its parent and it has no collections; changes nothing otherwise |
| Units.UnitTable.EffectiveAdministeringUsers | app/models/unit.rb:259-272 | exactly the administrators of its institution and of all units from which a downward path leads to it, itself included |
| Units.UnitTable.SubmittedItemCount | app/models/unit.rb:441-455 | the unit's own count or, with children, the roll-up over its subtree |
| Units.DetachKeepsRefusals | app/models/unit.rb:336-345 | which units of the subtree refuse to be saved is the same before and after the root is detached |
| Units.MoveHandsOverAdmins | app/models/unit.rb:313-345 | after a move the effective administrators in the subtree are exactly the destination's, and those of other units are what they were |
| Calendar.SqlRangeIsInterval | app/models/monthly_collection_item_download_count.rb:60-61 | the two year/month disjunctions are an interval test on 12 * year + month |
| Calendar.PadResults | app/models/monthly_item_download_count.rb:203-218 | one entry for each month of the span, in order and with none left out, holding the count of its row or 0 |
| Calendar.PaddingConserves | app/models/monthly_item_download_count.rb:203-218 | rows with one per month and inside the span keep their total |
| MonthlySeries.TimeNew | app/util/time_utils.rb:104-113 | gives a real date for a month 1..12 and a day 1..31, and fails otherwise |
| MonthlySeries.SubmittedSpan | app/models/collection.rb:472-499 | after the added month and the dropped row, the series runs from the month of the start to the month of the end |
| MonthlySeries.SeriesLineUpIff | app/controllers/collections_controller.rb:446-466 | when neither side raises, row i of both series is the same month and the lengths agree if and only if the start has a year above 0 and both days exist in their months; with such a start the zip stays in bounds unless only the end day does not exist |
| MonthlySeries.OverrunShiftsSeries | app/controllers/collections_controller.rb:446-466 | from February 31, the item series starts in March and the download series in February |
| DownloadTables.Aggregate | app/models/monthly_unit_item_download_count.rb:28-38 | one row per group that occurs, with the sum of its counts |
| DownloadTables.GroupUpsert | app/models/monthly_unit_item_download_count.rb:76-83 | incrementing a row and then aggregating is aggregating and then incrementing its group |
| DownloadTables.StepKeepsAgreement | app/models/bitstream.rb:339-354 | a download keeps each coarse table equal to its aggregate; recompiling changes nothing |
| DownloadTables.RunKeepsAgreement | app/models/bitstream.rb:339-354 | over any interleaving of downloads, re-ownings and recompilations the collection, unit and institution tables are exactly the aggregates of the item table |
| DownloadTables.AggregateAnswers | app/models/monthly_collection_item_download_count.rb:28-38 | a coarse table answers every question about IDs and months as the item table would |
| DownloadTables.ReportsCountHistory | app/models/bitstream.rb:339-354 | from empty tables, the sum of the unit table over some IDs and months is the number of downloads in the history with complete owners, one of those units as owner and one of those months; the same for collections and institutions |
| DownloadTables.TotalsAreDownloads | app/models/bitstream.rb:339-354 | from empty tables, all four totals are the number of downloads in the history with a collection, a unit and an institution |
| Reports.ReportingTables.AddDownload | app/models/bitstream.rb:339-354 | one more in the row of the item, its owners and the month, and one more in the row of the month and, respectively, of the collection, the unit and the institution; nothing when an owner is missing; keeps the tables in agreement |
| Reports.ReportingTables.IncrementItem | app/models/monthly_item_download_count.rb:147-163 | with all owners known, the one row of this item, its owners and the month counts one more and every other row stays; the table's total and each of its three aggregates grow by exactly this download; otherwise nothing changes |
| Reports.ReportingTables.CompileAll | app/models/monthly_institution_item_download_count.rb:28-38 | brings the coarse tables into agreement with the item table, and changes nothing if they were |
| Reports.SelectByMonth | app/models/monthly_unit_item_download_count.rb:56-65 | one row per month that occurs in the range, in order, with the sum over the given IDs |
| Reports.ReportingTables.ForCollection | app/models/monthly_collection_item_download_count.rb:50-68 | fails exactly on a bad range; otherwise one entry per month of the range with the collection's hits of that month |
| Reports.GoodRangeIff | app/models/monthly_unit_item_download_count.rb:51-53 | a range is good if both months are 1 to 12 and the start lies before the end |
| Reports.ReportingTables.ForInstitution | app/models/monthly_institution_item_download_count.rb:50-68 | the same for an institution |
| Reports.ReportingTables.ForUnit | app/models/monthly_unit_item_download_count.rb:50-68 | the same for a unit and every unit below it |
| Reports.ReportingTables.SumForUnit | app/models/monthly_unit_item_download_count.rb:98-123 | the hits of the whole range, for the unit alone or with its subtree; absent bounds are 2006, month 1, the current year and month 12 |
| Reports.EntriesSumToTotal | app/models/monthly_unit_item_download_count.rb:86-123 | the monthly entries add up to the sum over the same range |
| Reports.EntriesCountHistory | app/models/monthly_unit_item_download_count.rb:50-68 | end to end: from empty tables, a report has an entry for each month of its range, and entry i of a unit report is the number of downloads in the history with complete owners, of month start + i, with one of its units as owner; the same for collections and institutions |
| Reports.SumForUnitIsAdditive | app/models/monthly_unit_item_download_count.rb:98-123 | the sum with children is the unit's own hits plus, for each child, the sum of that child |
| StorageKeys.KeysAre | app/models/bitstream.rb:317-331 | a permanent key is "institutions", the institution's key, "storage", the item's ID and the filename joined by slashes, and a staging key the same with "uploads" |
| StorageKeys.KeyInjective | app/models/bitstream.rb:317-331 | equal keys come from the same area, institution, item and filename, slashes in filenames included |
| Storage.LocatedInjective | app/models/bitstream.rb:830-838 | with filenames unique per item and keys computed, no two bitstreams share a key |
| Storage.MoveKeepsMatch | app/models/object_store.rb:62-65 | moving an object to a key nobody has never overwrites and never moves onto itself, and keeps every content at its key; it raises exactly when nothing was uploaded |
| Storage.CreateKeepsGood | app/models/bitstream.rb:301-309 | succeeds exactly when the name is new in the item, and keeps the invariant |
| Storage.UploadKeepsGood | app/models/bitstream.rb:694-698 | an upload always goes to the bitstream's own key, and keeps the invariant |
| Storage.RenameKeepsGoodIff | app/models/bitstream.rb:715-757 | when a rename goes through, to a given name or to none, which takes the original one back unchecked; it keeps the invariant if and only if it is refused at once or changes nothing, or the old filename is not blank and either no other file has the new one and the rest of the save completes or the file was never uploaded, or the old filename is blank and the save is taken back |
| Storage.ImportKeepsGoodIff | app/util/csv_importer.rb:336-360 | one file in a transaction: passed over if a row of the item has its name, and otherwise put at a key that was free; the invariant is kept if and only if nothing is added or the transaction completes |
| Imports.BatchKeepsGoodIff | app/util/csv_importer.rb:187-228 | all files of an import in one transaction keep the invariant if and only if it goes through or has added no file; when it fails, all rows are as before, every object is where it was, and exactly the added files' objects are left besides, at keys that were free and belong to no row |
| Imports.BatchIsRun | app/util/csv_importer.rb:336-360 | an import that goes through is a run of imports of single files |
| Imports.UnlistedKeepsGoodIff | app/util/csv_importer.rb:336-360 | if the names are compared with a list of files that does not grow with the import, files that go through keep the invariant if and only if no name that the item lacks comes twice, and then the list makes no difference |
| Storage.MoveIntoPermanentKeepsGood | app/models/bitstream.rb:573-583 | goes through exactly when the file is staged and uploaded, and keeps the invariant either way |
| Storage.DestroyKeepsGoodIff | app/models/bitstream.rb:430-448 | a deletion keeps the invariant if and only if it completes or there was no object to lose; completed, it deletes the row and its own object only |
| StorageMoves.RelocateKeepsGoodIff | app/models/unit.rb:339-404 | a move between institutions goes through if and only if every statement of the loop does, a key change when the object is there or need not move, and then keeps the invariant; when it fails, the rows are as before and the invariant survives if and only if no object had moved before the first statement that raised |
| StorageMoves.FailedRelocationLoses | app/models/unit.rb:339-404 | otherwise some uploaded content is not at its key any more |
| StorageMoves.RelocationCallsSafe | app/models/object_store.rb:62-65 | every iteration of a move, completed or not, moves an object to another key and one that no object has at that moment |
| StorageRuns.ApproveAllKeepsGood | app/models/item.rb:741-745 | approving an item's staged files goes through if and only if all were uploaded, then all are in permanent storage, and no other row changes |
| StorageRuns.StepKeepsGoodIff | app/models/bitstream.rb:135-140 | one step of any kind keeps the invariant if and only if it is careful: no rename of a blank name, no file that takes back a name another one has (unless there is no object to move), no rename or deletion that raises once its object is gone, no import that fails once it has put its object, and no move that raises after its first object |
| StorageRuns.RunKeepsGoodIff | app/models/bitstream.rb:727-757 | over a whole run: each bitstream has one key, the computed one, no two alike, with its own content there, in every state passed, if and only if every step is careful |
| StorageRuns.StepCallsSafe | app/models/object_store.rb:62-65 | from a state that meets the invariant, every call of move_object made by a rename, an approval or a move has a target that is not its source and not an occupied key, if and only if the step is not a rename that takes back a name whose key holds another file's object; a careful step makes such a call only when its source is missing, which raises |
| StorageRuns.RunCallsSafe | app/models/object_store.rb:62-65 | the same for every call of a run, up to and including its first step that is not careful |
| StorageRuns.ContentIsLastPut | app/models/bitstream.rb:694-698 | what the model remembers of a bitstream is the last upload or import of the history, unless it was deleted since |
| StorageRuns.NothingLost | app/models/bitstream.rb:483-487 | at the end of every such run, the object at a bitstream's effective key is what was last uploaded or imported to it |
| LostFiles.BlankNameLosesContent | app/models/bitstream.rb:135-140 | a history with a blank filename after which two files share a key and the first one's content is nowhere in the store |
| LostFiles.NameTakenBackOverwrites | app/models/bitstream.rb:715-757 | whenever an uploaded file takes back the name of another uploaded one in the same area, its object replaces the other one's; an archived file then shares its key, a staged one is refused by the unique index when that has happened |
| LostFiles.NoNameLosesContent | app/models/bitstream.rb:715-757 | a history of careful steps and then a rename to no name, after which two files share a key and the second one's content is nowhere in the store |
| LostFiles.FailedImportStrands | app/util/csv_importer.rb:187-190 | after an import that fails there is an object without a row |
| LostFiles.UnlistedImportOverwrites | app/util/csv_importer.rb:336-360 | two files of one name in one row of the CSV, the first not in the list: two rows share a key and the first content is nowhere in the store |
| LostFiles.HalfMoveLosesContent | app/models/unit.rb:376-395 | two files, the second never uploaded: the move fails, the rows are as before, and the first file's content is not at its key |
| LostFiles.ClashingUriLosesContent | app/models/unit.rb:361-371 | two items, the first with an uploaded file, the second with an element whose name the destination lacks while it has the URI: no visit is refused and every object is there, the move fails, and the first file's content is not at its key |
| LostFiles.EqualElementsLoseContent | app/models/unit.rb:358-374 | the same when the second item has two equal elements, all names are known and nothing else is refused |
| LostFiles.RefusedElementLoses | app/models/unit.rb:361-374 | the same for whatever makes the elements of the second item fail |
| Files.SeenIsContent | app/models/bitstream.rb:483-487 | the object at a bitstream's effective key is its own last upload, and there is none before the first |
| Files.StepRefinesFiles | app/models/bitstream.rb:573-757 | one careful step on rows, keys and objects looks, read through the effective keys, like one step on files that have just a name, an original name, an area and a content: a rename changes the name only, an approval the area only, a move the institution only, and a step that is refused nothing |
| Files.RunRefinesFiles | app/models/bitstream.rb:573-757 | the same over whole runs: rows and object store together refine that simpler model |
| StorageEffects.GoodMeans | app/models/bitstream.rb:301-331 | the storage invariant in rows and objects: every row has one key, in storage or in uploads, filenames are unique per item, every remembered content is at a key of its row, and every object is one of them |
| StorageEffects.CreateEffect | app/models/bitstream.rb:301-309 | a new file is staged under its key in uploads, refused exactly if its ID is used, its item unknown or its name taken, and changes nothing else |
| StorageEffects.UploadEffect | app/models/bitstream.rb:483-487 | a present permanent key counts before a present staging key, and without either an upload raises |
| StorageEffects.RenameEffect | app/models/bitstream.rb:715-757 | a rename to a given name that another file has is refused; otherwise the object goes along to the key of the new name in the same area, unless the old name was blank; it raises if there is no object, or if the new key is the staging key of another file |
| StorageEffects.ApproveEffect | app/models/bitstream.rb:573-583 | a staged file that was uploaded has afterwards only its key in storage, and its object is there; otherwise nothing changes |
| StorageEffects.RehomeEffect | app/models/unit.rb:378-394 | the key of one file in the other institution, in the area where it is, and its object with it; raises without an object unless it is there already |
| StorageEffects.RelocateEffect | app/models/unit.rb:339-404 | a move goes through if and only if no other statement raises and every file that is elsewhere has an object; then exactly the files of the items have new keys, and all other columns are as before |
| StorageEffects.DeleteEffect | app/models/bitstream.rb:430-448 | a deletion removes the object at the file's key, and the row if it completes |
| StorageEffects.ImportEffect | app/util/csv_importer.rb:336-360 | an imported file has its key in storage and its object there, unless the item has a file of its name; without completion the row is taken back |
| Repository.ObjectStore.CopyObject | app/models/object_store.rb:24-32 | copies an object, or raises on a blank key or a missing source and changes nothing |
| Repository.ObjectStore.Move | app/models/object_store.rb:62-65 | copy and delete are the move on the map of objects |
| Repository.BitstreamTable.Create | app/models/bitstream.rb:301-309 | performs the create step of StorageEffects.CreateEffect, duplicate staging keys refused too, and keeps the invariant |
| Repository.BitstreamTable.Put | app/models/bitstream.rb:694-698 | performs the upload step and keeps the invariant |
| Repository.BitstreamTable.UpdateFilename | app/models/bitstream.rb:715-757 | performs the rename step, to a name or to none, the object first and then the row, recording exactly the calls of move_object of that step; keeps the invariant if and only if the step is careful |
| Repository.BitstreamTable.Import | app/util/csv_importer.rb:336-360 | performs the import of one file, row first and then object, and keeps the invariant if and only if the step is careful |
| Repository.BitstreamTable.ImportFiles | app/util/csv_importer.rb:187-228 | the loop over files inside a transaction, up to the first that raises; keeps the invariant if and only if it goes through or has added no file |
| Repository.BitstreamTable.Archive | app/models/bitstream.rb:573-583 | performs the approval step of StorageEffects.ApproveEffect, with the calls that are proved safe, and keeps the invariant |
| Repository.BitstreamTable.ApproveItem | app/models/item.rb:741-745 | the loop over the staged files, up to the first that raises; keeps the invariant |
| Repository.BitstreamTable.Delete | app/models/bitstream.rb:430-448 | performs the destroy step, and keeps the invariant if and only if the step is careful |
| Repository.BitstreamTable.RehomeOne | app/models/unit.rb:378-394 | gives one bitstream the key of the new institution, its object with it if the key changes |
| Repository.BitstreamTable.MoveItems | app/models/unit.rb:339-404 | the loop inside a transaction, whatever raises in it: a failure restores the rows and not the objects; keeps the invariant if and only if the step is careful |
| Burial.StageRoundTrip | app/models/item.rb:960-968 | burying and exhuming gives back the exact stage and reason |
| Burial.ReasonRestoredIff | app/models/item.rb:697-709 | an exhumed item has the remembered reason if and only if there was none or it differs from the current one |
| Burial.ReasonLost | app/models/item.rb:960-968 | a buried item whose reason equals the remembered one comes back without a reason |
| Burial.SaveRefusedReachable | app/models/unit.rb:509-519 | burying a child and its parent and exhuming the child makes the parent refuse every other save |
| Burial.BuryGuard | app/models/collection.rb:512-522 | a live item, collection or unit is buried if and only if no item, child collection, collection or child unit that is live lies in it; then it alone stops being live, and otherwise nothing changes |
| Burial.ExhumeIff | app/models/collection.rb:542-547 | what is buried comes back if and only if it is a unit or one of its collections or units is live, and otherwise nothing changes; an item that remembers having been buried stays so |
| Burial.SetStageIff | app/models/item.rb:960-991 | a save that leaves the buried stage needs a live collection; a changed stage is remembered with its reason, and a reason that was left as it was is dropped |
| Burial.DestroyIff | app/models/collection.rb:528-536 | a collection or unit is destroyed if and only if nothing at all lies in it, an item always |
| Burial.SaveRefusedIff | app/models/unit.rb:509-519 | a collection or unit refuses every other save if and only if it is buried and something live lies in it |
| Burial.CollectionRefusalReachable | app/models/collection.rb:512-516 | an item of two collections: bury it, bury one collection, exhume it through the other, and the first collection refuses every other save |
| Burial.StepKeepsOwners | app/models/item.rb:985-991 | no burial, exhumation, stage change or destroy leaves a live item or collection without a live owner, if it has owners |
| Burial.RunKeepsOwners | app/models/collection.rb:542-547 | the same over every run: whatever is live at its end and has owners has a live one |
| Burial.BuryAllPasses | app/models/collection.rb:512-522 | in leaf-first order every guard passes, and exactly the listed entities have been buried |
| Burial.SubtreeRoundTrip | app/models/unit.rb:509-519 | burying a plan leaf-first passes every guard; exhuming it in reverse passes if and only if each item of the plan had a live collection and each collection a live unit, and then every flag, membership, stage and reason is as it was |
| Hierarchy.Tables.BuryItem | app/models/item.rb:553-564 | the item is in stage 500, with its stage and reason remembered; repeating it does nothing; leaves no live orphan if there was none |
| Hierarchy.Tables.ExhumeItem | app/models/item.rb:697-709 | brings back the remembered stage, or 300 without one; refused, with nothing changed, exactly if no collection of the item is live and it does not remember stage 500; leaves no live orphan if there was none |
| Hierarchy.Tables.BuryCollection | app/models/collection.rb:276-278 | refused, with nothing changed, exactly while one of its items or child collections is live; otherwise its flag is set and nothing else changes; leaves no live orphan if there was none |
| Hierarchy.Tables.ExhumeCollection | app/models/collection.rb:433-435 | refused, with nothing changed, exactly if none of its units is live; otherwise its flag is cleared and nothing else changes; leaves no live orphan if there was none |
| Hierarchy.Tables.BuryUnit | app/models/unit.rb:180-182 | refused, with nothing changed, exactly while one of its child units or collections is live; otherwise its flag is set and nothing else changes; leaves no live orphan if there was none |
| Hierarchy.Tables.ExhumeUnit | app/models/unit.rb:279-281 | clears the flag and changes nothing else, and is never refused; leaves no live orphan if there was none |
| Hierarchy.ParentEarlier | app/models/unit.rb:91-111 | in the order of the descendant query a parent comes before its children |
| Hierarchy.LiveUnitsInOrder | app/models/unit.rb:509-519 | leaving out the units that are buried already keeps the order of the rest |
| Hierarchy.SubtreePlanIsLeafFirst | app/models/unit.rb:509-519 | live items, then live collections leaf-first, then the live units of the descendant query in reverse, is a leaf-first order |
| Hierarchy.SubtreeBurialRoundTrip | app/models/unit.rb:509-519 | what is live in a unit's subtree, buried in that order, is buried whole; it comes back, whole, if and only if all of it had live owners; what was buried before stays buried |
| Hierarchy.GatheredExists | app/models/collection.rb:553-561 | without a cycle among collections, the live collections at or below the units and their live items can be listed once each, children before parents |
| Hierarchy.CollectionsBelowIff | app/models/collection.rb:166-199 | the collections listed are the live ones that are in one of the units or have one of them as their parent |
| Hierarchy.SubtreeComesBackIff | app/models/unit.rb:509-519 | for every unit such lists exist; the subtree is buried, and comes back whole if and only if every live collection at or below its live units has a live unit |
| Hierarchy.OrphanStaysBuried | app/models/collection.rb:542-547 | a unit with a live child collection that has no unit is buried whole and does not come back whole |
| Tokens.Rot18Involution | app/util/string_utils.rb:14-16 | scrambling twice gives the text back |
| Tokens.Rot18Is | app/util/string_utils.rb:14-16 | letters move by 13 places in their alphabet and digits by 5 among the digits; nothing else changes |
| Tokens.TokenText | app/controllers/oai_pmh_controller.rb:362-374 | with all values given, a token is set, from, until, lsv and metadataPrefix in this order, each with a colon and its value, joined by vertical bars and scrambled |
| Tokens.SetsTokenText | app/controllers/oai_pmh_controller.rb:376-382 | a ListSets token is start, a colon and the offset in decimal, scrambled |
| Tokens.ParseResumptionToken | app/controllers/oai_pmh_controller.rb:334-343 | the scan with its early return yields the value of the first component for the key |
| Tokens.ComponentMeans | app/controllers/oai_pmh_controller.rb:337-340 | a component without a colon, or of another key, has no value for a key; one of the key and a value has it, inner colons included; colons at the end of a component do not count |
| Tokens.EncodeParses | app/controllers/oai_pmh_controller.rb:334-343 | parsing a printed list of pairs looks a key up in the list, inner colons kept |
| Tokens.TokenRoundTripIff | app/controllers/oai_pmh_controller.rb:362-374 | all five values come back, omitted ones as nothing, if and only if none contains a vertical bar or ends in `:` |
| Tokens.UncleanValuesLost | app/controllers/oai_pmh_controller.rb:334-343 | a date that ends in a colon, or an ID with a vertical bar in it, does not come back |
| Tokens.ParseIsClean | app/controllers/oai_pmh_controller.rb:334-343 | whatever the token, no parsed value contains a vertical bar or ends in `:` |
| Tokens.SetsTokenRoundTrip | app/controllers/oai_pmh_controller.rb:376-382 | the offset of a ListSets token comes back as the same number |
| Harvest.FiltersRecoveredIff | app/controllers/oai_pmh_controller.rb:291-332 | a request with only a token has the set, dates, format and last ID that the token was built from if and only if they are clean, with no bar in them and no colon at the end |
| Harvest.FirstRequestFilters | app/controllers/oai_pmh_controller.rb:287-332 | a request without a token has exactly its own arguments as filters, a set that is absent or blank being none |
| Harvest.TokenGoesFirst | app/controllers/oai_pmh_controller.rb:287-332 | with a token, each of its values goes before the argument of that name, and an argument counts if the token has no value for it |
| Harvest.SplicedUntilRepeats | app/controllers/oai_pmh_controller.rb:272-283 | with a bar and an ID of its own in until, every token asks for what follows that ID, so that a second page can be the first again |
| Harvest.SecondPageRepeats | app/controllers/oai_pmh_controller.rb:223-285 | until 2024-01-01|lsv:0 gives the first page twice |
| Harvest.SearchAfterIndex | app/controllers/oai_pmh_controller.rb:272-273 | in an ordered list, searching after an ID gives exactly what follows it |
| Harvest.PageContinues | app/controllers/oai_pmh_controller.rb:223-285 | a request that asks for what follows n records gets the next 100 at most, the size of the full list, and, if there was anything, a token with the same filters and the last ID of the page |
| Harvest.HarvestRecords | app/controllers/oai_pmh_controller.rb:223-285 | following the tokens ends and yields the full list under the arguments of the first request, no gap and no repeat, in ceiling(n / 100) + 1 requests |
| Harvest.EmptyListIsError | app/controllers/oai_pmh_controller.rb:274-276 | a first request fails on a blank date, otherwise with noRecordsMatch if and only if nothing matches its arguments, and in no other case |
| Harvest.SetsPageContinues | app/controllers/oai_pmh_controller.rb:183-218 | a ListSets page and its token continue where the request's offset left off, with a token only if more follows |
| Harvest.SetsRefusedIff | app/controllers/oai_pmh_controller.rb:322-324 | the offset is 0 without a token, and a ListSets request fails exactly on a negative one |
| Text.ReadSignedNumber | app/controllers/oai_pmh_controller.rb:322-324 | to_i reads a sign and the digits after it, and stops at what follows |
| Harvest.HarvestSets | app/controllers/oai_pmh_controller.rb:183-218 | following the tokens ends and yields every row of the query once and in order, in ceiling(n / 100) requests, or one if there are no sets |
| Arguments.ValidateArguments | app/controllers/oai_pmh_controller.rb:392-430 | reports the exclusive token exactly if it does not stand alone, exactly the required arguments that are missing or blank, metadataPrefix excused by a token, and exactly the arguments that are not allowed; action, controller and verb do not count |
| Admission.AdmittedIffFits | app/models/unit.rb:361-371 | one after the other, the elements go through if and only if every name that has to be entered comes with a note that fits and a URI used neither at the destination before nor by an earlier clone |
| Admission.OneSourceFitsIff | app/models/unit.rb:361-371 | when they come from one institution, if and only if each is admitted by itself |
| Admission.ScopeNoteFitsIff | app/models/unit.rb:364-369 | the note of a clone fits its 1024 characters if and only if unit title and institution name have at most 948 together |
| Admission.ScopeNoteReads | app/models/unit.rb:366-369 | the wording of the note |
| Admission.LongTitleRefused | app/models/unit.rb:364-370 | from a title of 1000 characters on, no element with a missing name goes through |
| Admission.AdmitsIff | app/models/unit.rb:361-371 | an element is admitted if and only if the destination has its name, or the note has at most 1024 characters and no element there has its URI |
| Migration.MetadataTables.MoveElement | app/models/unit.rb:361-374 | for one element: passes if and only if its name is known, or its URI is unused and the note fits; then it points to the destination's element of its name, a clone added only if the name was missing; otherwise nothing changes; both unique indexes hold on |
| Migration.PruneDuplicates | app/models/item.rb:943-955 | the deleted elements are exactly those that equal an earlier one in string, URI and registered element |
| Migration.NoTwinsIff | app/models/item.rb:943-955 | no two elements of a list agree in string, URI and registered element |
| Migration.MetadataTables.MoveItem | app/models/unit.rb:358-375 | the elements of one item go through if and only if each is admitted after those before it, passes its own validations and equals no earlier one |
| Migration.MetadataTables.MoveElements | app/models/unit.rb:325-375 | the elements of all items go through if and only if all names are admitted, no element is refused and no item has two equal ones; then elements keep their name and text and point to the destination's registry, which grows by exactly the missing names, each entered as a clone; otherwise nothing changes; an item visited twice is allowed |
| Migration.MoveNext | app/models/unit.rb:361-375 | one more element, or one moved before, keeps what was achieved |
| Migration.ClashingUriRefused | app/models/unit.rb:361-371 | a name that is missing at the destination while its URI is in use there is refused |
| Migration.TwinsStay | app/models/unit.rb:361-375 | moving all elements of an item makes no two of them equal and keeps equal ones equal, so an item visited again is judged as at first |
| Migration.MergeMakesTwins | app/models/registered_element.rb:155-168 | the bulk update that merges two registered elements can leave an item with two equal elements |
| Migration.EqualElementsRefused | app/models/item.rb:943-955 | two equal elements whose name the destination has pass every check of names and are still not without a duplicate |
| Relocation.VisitsPassIff | app/models/unit.rb:339-404 | none of the statements of the loop is refused on its own account if and only if no record visited is refused, no visited unit or collection is buried with something live in it, and no item has two equal elements |
| Relocation.UnitPassesMeans | app/models/unit.rb:339-404 | in flags and rows: the unit and its collections are not buried with something live in them, each collection has a primary unit, and each item, its elements, its files and its event are accepted and no two of its elements are equal |
| Relocation.ElementsRead | app/models/unit.rb:361-375 | the statements of two elements in their order: each gets its new registered element and is then saved, which fails for the second if it equals the first |
| Relocation.ItemReads | app/models/unit.rb:352-396 | the statements of an item in their order: its save, its elements, for a file the first message, the new key and the second message, and its event |
| Relocation.ItineraryReads | app/models/unit.rb:341-358 | a unit is saved before its collections, and a collection before its items |
| Relocation.MoveGoesThroughIff | app/models/unit.rb:339-404 | a move goes through if and only if that holds, the missing names come with unused URIs and notes that fit, and every object that has to move is there; then the storage invariant holds on, and after a failure if and only if no object had moved before the first statement that raised |
| Relocation.MoveFromOneSourceIff | app/models/unit.rb:339-404 | for elements of one institution the condition on names is that each is admitted by itself |
| Relocation.CarefulMoveIff | app/models/unit.rb:339-404 | those conditions are what a careful move of the storage runs amounts to |
| InstitutionMove.MoveItem | app/models/unit.rb:352-396 | saves, elements and bitstreams of one item, in order and up to the first that raises, perform the statements of the item; if none raises its elements have been moved |
| InstitutionMove.MoveUnits | app/models/unit.rb:341-404 | the nested loops perform the whole itinerary up to the first statement that raises; if none does, the units visited have the new institution and no administrators, and the elements have been moved |
| InstitutionMove.DetachedItinerary | app/models/unit.rb:336-345 | the loop, which runs after the root has been detached, has the same statements as before |
| InstitutionMove.RunLoop | app/models/unit.rb:339-404 | rows of units, metadata and bitstreams change together or not at all, and the stored objects as in the storage move |
| InstitutionMove.MoveTo | app/models/unit.rb:313-405 | each of the first five errors is raised exactly when its check is the first that does not pass; under the storage invariant, succeeds if and only if the four checks pass, the root can be saved, and the condition of Relocation.MoveGoesThroughIff holds; then the unit is a root, its subtree is in the new institution without administrators, every other unit is as before, the metadata is migrated and the storage move made; a failure in the loop leaves all rows as they were but the detachment; an earlier failure changes nothing |
| InstitutionMove.AfterMove | app/models/unit.rb:313-405 | when the loop went through, the storage invariant holds, the effective administrators in the subtree are exactly the destination's and those of other units are as before; when it failed, the storage invariant holds if and only if no object had moved before the first statement that raised |

## Left out

- `natural_sort_bitstreams` (app/models/item.rb): not a sort, and only a sequence of the position updates modelled here.
- `presigned_upload_url` on an approved item, which leaves two keys on a row: storage runs keep one key at a time.
- SAF imports, which only add files to items of their own; when one fails, its items are rolled back and its objects stay. Of CSV imports the files are modelled, and not the items they create or update.
- `Storage.ImportKeepsGoodIff`: compares the name with the saved rows. The application compares it with a list of the item's files that is loaded once; whether a new row is added to that list is up to Rails, and `Imports.UnlistedKeepsGoodIff` is about the case that it is not.
- `Repository.BitstreamTable.Import`: makes the same comparison with the saved rows.
- Medusa, derivatives, full text, access lists and the other columns of a bitstream; license bitstreams made on approval.
- `Repository.BitstreamTable.MoveItems`: takes the statements of the loop as a list; `InstitutionMove` has the nested loops that it stands for.
- `InstitutionMove.MoveTo`: takes what the loop loads as a parameter, with flags for the validations that are not modelled (an item's own and those of its event, the text and position of an element, a missing primary unit, other validations of a unit count as passing) and for the Medusa messages; does not model administrator groups, collection administrators and submitters, profiles of collections and bitstream authorizations, which are cleared without condition.
- `Migration.MetadataTables.MoveItem`: does not delete the duplicates from the table, because a move that meets one is rolled back.
- `Units.UnitTable.EffectiveAdministeringUsers`: does not model the cached value of a loaded record.
- Validations of titles, primary administrators and primary units; `ensure_default_uniqueness`; `add_all_registered_elements`, which is the create step in a loop.
- A bitstream whose bundle and position change in one save.
- Rows that tie in an `ORDER BY` may come in any order; labels are ordered by their codes.
- `owning_ids` is a parameter of each download, so that memberships may change in any way between two of them; its join is not modelled. All tables of one download see the same month.
- `for_item`, which takes the first of several rows per month when an item had several owners, and `compile_counts` of the item table from events.
- `sum_for_collection`, which is `sum_for_unit` over the collection tree.
- The counts of the submitted-items series (its months are modelled), how its defaults for absent dates are found, and time zones.
- `Burial.RunKeepsOwners`: keeps memberships fixed, because the guards of burial say nothing about changes of membership.
- "A buried parent has no live child" is no invariant: exhuming a unit or child collection does not look at its parent.
- `Burial.SetStage` ignores which stages a submission may go through; only the burial guard and the remembered stage matter here.
- `Harvest.HarvestRecords`: takes the search index as a fixed ordered list per filter, with `search_after` giving the greater IDs and a count that ignores it; IDs and filters are clean, as `Harvest.FiltersRecoveredIff` shows they have to be.
- `Harvest.FetchRecords` rejects a blank date and accepts any other text as one.
- `Harvest.HarvestSets`: takes the rows of the query as fixed, in its order. The query joins memberships without removing duplicates, so a collection in two units of the institution is a row twice.
- `Text.ToI` does not read leading spaces or underscores between digits.
- Registered elements carry a name, a URI and an institution in `Admission`; labels, vocabularies and mappings are copied unchanged by the application, and of scope notes only the length counts.
- Concurrency between requests, background tasks, search, mail, authentication and all views.
