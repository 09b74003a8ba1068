# Zembra backend: synchronization and note store

Zembra is a note-taking backend. Each device keeps its notes in a local SQLite database and synchronizes nine tables
(workspaces, devices, fields, tags, notes, note revisions, note tags, note links and the change log) with one Supabase
project. This project models the part of the backend that decides what moves where, and the part that writes the notes
and the log those decisions rest on.

The model has four parts.

* **The comparison.** `Tables`, `Changes`, `Lifecycle`, `Snapshots` and `Diff` model two sides as maps from primary
  keys to rows, the newest change per entity, the decision about one key, and the comparison as the service runs it:
  rows hashed by key, keys visited in any order, the action list sorted last. `Verdicts` tells the decisions from what
  the sides hold and what their logs say last, and `Comparison` proves what a comparison as a whole says.
* **The synchronization.** `Stores` models the local database, whose writes are transactions with foreign keys
  enforced, and the remote store, which takes one request after the other. `Service` models a run, a push and a pull
  with all their stopping points. `Merge`, `Resume`, `Directions`, `Clearing`, `Replicas`, `Requests`, `ForeignKeys`
  and `References` prove what they achieve.
* **The note store.** `Database`, `Taxonomy`, `NoteTagging`, `NoteLinking` and `Notes` are imperative models of the
  repositories over one database object. `Ledger` states their invariant, `Consistent`: the change log, read in
  recording order, describes exactly the rows there are; references hold; tags form a forest; ids are made up once;
  and what was deleted for good is never spoken of again. Every operation keeps it. `Growth` counts rows against
  changes, `TagPaths` and `Payloads` are the two text formats, `Sides` shows that a reachable store is a side the
  synchronization can rely on, and `Paging` follows the cursors of the recent-notes query.
* **The inbox.** `Apply` models the older path that replays remote changes one by one, and `Landing` tells what each
  change leaves in the tables.

The central results read as follows. From two sides without conflicts, a run leaves them agreed, and the next
comparison is silent. An action list does not depend on any iteration order exactly if no change is requested in both
directions. Nothing is lost except what a tombstone decided. Two devices that take turns against one remote side end
up with the same rows, and a run interrupted anywhere is finished by the next one, each with its exact exceptions,
which concern workspaces nothing uses on one device. As far as references decide, a run over a reliable network
succeeds exactly if no note written to a side points at a field deleted there. The store's log agrees with its tables
after every call.

`dafny verify dfyconfig.toml` checks the whole project.

## Model

| member | source | states |
|---|---|---|
| Tables.NoteTagKeysAreInjective | src/sync/diff.rs:930-945 | on ids without a colon, the two composite strings identify the relation and its entity: equal strings, equal parts, and conversely |
| Verdicts.PrimaryKeyIsKeyOf | src/sync/diff.rs:930-945 | every row is keyed by its id, a tag relation by workspace, note and tag joined by colons, a change by its own id |
| Changes.LatestChanges | src/sync/diff.rs:782-800 | one pass over the log, in any order, leaves for every entity the change with the greatest creation time, ties by id, and an entry for no other entity |
| Changes.IndexOfUnion | src/sync/diff.rs:782-800 | the newest change of two logs together is, entity by entity, the newer of the two newest ones |
| Diff.DiffSnapshots | src/sync/diff.rs:109-198 | whatever the order of the row lists and of the hash maps, the actions and conflicts are as bags exactly what every primary key contributes, and the actions are in execution order |
| Diff.SyncSnapshotDiff.CompareRow | src/sync/diff.rs:508-601 | one key of a table other than workspaces and changes contributes the verdict of the lifecycle rules, its change copies and its conflict, in that order, and nothing else |
| Diff.SyncSnapshotDiff.HandleMissingRemote | src/sync/diff.rs:605-658 | a row the remote side lacks is sent, deleted here with its tombstone copied, or a conflict, by the lifecycle of its table and the newest remote change about it |
| Verdicts.DifferenceVerdict | src/sync/diff.rs:508-601 | rows that differ, told from rows and logs alone: a note follows the side whose log last deleted the field only its copy has; otherwise the side whose log alone or later speaks of the row is taken, and neither of them is a conflict; two changes under one id always conflict |
| Verdicts.UndecidedVerdict | src/sync/diff.rs:814-834 | that last conflict arises if and only if both logs are silent about the row or last speak of it at the same time |
| Verdicts.MissingRemoteVerdict | src/sync/diff.rs:605-658 | a row only the local side has, told from rows and logs table by table: sent, kept as an unused workspace, dropped as a field, note tag or note link whose last remote change deletes it, or a conflict as a device, tag or revision with such a change |
| Verdicts.MissingLocalVerdict | src/sync/diff.rs:660-711 | the mirror image for a row only the remote side has, where a workspace always comes |
| Verdicts.ConflictFreeMeans | src/services/sync.rs:180-188 | two sides can be synchronized at all if and only if no row differs undecidedly, no change contradicts its copy, and no device, tag or revision one side has was last deleted by the other |
| Verdicts.ActionsTell | src/sync/diff.rs:109-198 | an action is in the list if and only if some row asks for it: its verdict, the newest change only one log has about a row, or the change that deleted it |
| Verdicts.ExecutionOrder | src/sync/diff.rs:903-928 | all upserts, then all deletions, then all change copies; within a step referenced tables first, within a table by key |
| Base.StringOrder | src/sync/diff.rs:903-911 | keys are compared by the first character in which they differ, a proper prefix first |
| Comparison.QuietIffAgree | src/services/sync.rs:356-390 | the convergence check is exact: no action and no conflict if and only if both sides hold the same rows under the same keys, local workspaces nothing uses aside |
| Comparison.MirrorSymmetry | src/sync/diff.rs:605-711 | swapping the sides turns every action into its mirror image with the same multiplicity and keeps every conflict, the rule about unused workspaces aside |
| Comparison.OrderIndependence | src/sync/diff.rs:903-919 | any two sorted listings of the actions are the same list if and only if no change id is requested in both directions |
| Comparison.SharedIdLeavesOrderOpen | src/sync/diff.rs:714-732 | two sides whose logs give one id to changes about two different fields do request it in both directions, though their rows are soundly keyed |
| Comparison.SharedIdsAreNotCopiedBothWays | src/sync/diff.rs:714-732 | where an id names one change across both logs and an entity lives under one key, no change is requested in both directions |
| Merge.ConflictFreeListsAgree | src/sync/diff.rs:903-919 | without conflicts the action list is the same for every iteration order |
| Merge.Convergence | src/services/sync.rs:180-234 | from a conflict-free start the comparison of what both sides hold after a run is silent if and only if no pulled row belongs to an unused local workspace, so always when remote rows have their workspaces |
| Merge.Conservation | src/sync/diff.rs:605-711 | a key of either side is on both sides afterwards with a row one of them had, unless it is an unused local workspace, or a field, note tag or note link one side lacks and last deleted; then it is on neither; all three as equivalences |
| Merge.LogUnion | src/sync/diff.rs:734-800 | after a conflict-free run both logs are the union of the two logs, and its newest changes are the pointwise newer ones |
| Replicas.ThreeRuns | src/services/sync.rs:180-234 | device A, device B, device A again, the first two runs conflict-free: the third run writes nothing remotely and B agrees with the remote side; it is conflict-free, and A agrees as well, if and only if B sent no workspace that is unused on A with another row and no change newer than the remote ones |
| Replicas.ThirdRunCanClash | src/sync/diff.rs:372-448 | two devices with different rows for one workspace, used only on the second: the first two runs are conflict-free and the third is not |
| Resume.Resumption | src/services/sync.rs:208-222 | from every point a run, push or pull can stop at, the next comparison is conflict-free and leads to the same two sides as the uninterrupted run, if and only if no workspace still to be sent lost its last row before anything was sent, and no row was pulled into a workspace unused here |
| Directions.PushDirection | src/services/sync.rs:402-467 | after a push the direction check passes if and only if every deletion still to be applied locally survives the union of the logs |
| Directions.PullDirection | src/services/sync.rs:402-467 | the same for a pull and the deletions still to be applied remotely |
| Clearing.ClearedPullDirection | src/services/sync.rs:402-467 | the same condition decides when the pull cleared the field of hidden notes: those notes are still only to be sent |
| Directions.PushThenPull | src/services/sync.rs:80-148 | a push passes its check, and a pull after it ends in the pair of states of one bidirectional run, wherever the pulled rows belong |
| Directions.PullThenPush | src/services/sync.rs:80-148 | a pull passes its check, and a push after it ends in that pair, if and only if the pull neither emptied a workspace still to be sent nor brought a row into one unused here |
| Directions.ReattachedTagBlocksPush | src/services/sync.rs:402-467 | a tag detached remotely and attached again locally afterwards makes a push fail its own check |
| Directions.ReattachedTagStopsPush | src/services/sync.rs:402-467 | two such sides, given row by row, which no conflict keeps from being pushed |
| References.EveryPrefixResolves | src/repositories/sync/write_snapshot.rs:17-58 | from two sides that keep their references, every row-by-row prefix of the local write keeps them, if and only if no pulled note points at a field the local side deleted |
| References.EveryPrefixHolds | src/repositories/sync/write_snapshot.rs:17-58 | existence alone, with rows free to move between workspaces: every row-by-row prefix holds every row its rows point at, under exactly that condition |
| References.EveryTableResolves | src/sync/supabase.rs:200-222 | after every table of the remote write all references hold, if and only if no sent note points at a field the remote side deleted |
| References.EveryTableHolds | src/sync/supabase.rs:200-222 | existence alone, with rows free to move between workspaces: so does the remote side after every table, under exactly that condition |
| References.LocalWriteAccepted | src/repositories/database.rs:40-50 | with foreign keys enforced, the local write goes through under exactly that condition |
| References.RemoteWriteAccepted | src/sync/supabase.rs:200-222 | the remote tables all come through under exactly the condition on sent notes |
| References.RefusedForDeletedField | src/repositories/sync/write_snapshot.rs:288-312 | a pair of closed, conflict-free sides whose run is refused: the local side deleted a field, the remote side has a note that uses it |
| References.RunKeepsReferences | src/services/sync.rs:208-222 | a run no note of which points at a deleted field leaves two sides that keep their references, with no row moved between workspaces |
| References.ClearingKeepsReferences | src/repositories/sync/write_snapshot.rs:126-167 | deleting fields, note tags and note links the way the local store does leaves no dangling reference |
| ForeignKeys.ResolvedTells | docs/request-clarify/r036-field-delete-api.md:13 | table by table, which rows have to be there, and of the same workspace, for a row's references to hold |
| ForeignKeys.FitsTells | src/repositories/database.rs:40-50 | a row can be written exactly if they are there, its own key counting as there |
| Requests.DoomedIsDropped | src/repositories/sync/write_snapshot.rs:76-122 | the deletions carried out on each side are exactly the ones decided, and no delete action names a table deletion is unsupported for |
| Requests.PulledCountIsHonest | src/services/sync.rs:204-233 | the reported number of pulled rows is the number of distinct actions that target the local side, though a change copy can be requested twice |
| Requests.PushedCountIsHonest | src/services/sync.rs:204-233 | the same for pushed rows and the remote side |
| Snapshots.SubsetReads | src/sync/table_snapshot.rs:39-111 | the subset for an action list holds exactly the rows its actions of the given kinds name |
| Stores.LocalStore.WriteTableSnapshot | src/repositories/sync/write_snapshot.rs:17-58 | all rows are upserted, in write order, or none; none exactly if some row would leave a reference missing when it is written |
| Stores.AcceptedMeansResolving | src/repositories/database.rs:40-50 | from rows that keep their references, a write is accepted statement by statement if and only if all references hold after every statement |
| Stores.LocalStore.DeleteField | src/repositories/sync/write_snapshot.rs:126-167 | refused exactly if a visible note uses the field; otherwise the field goes and the hidden notes that used it lose their reference, nothing else changes |
| Stores.LocalStore.DeleteLocalActions | src/repositories/sync/write_snapshot.rs:70-122 | all local deletions or none; all exactly if each is of a supported table and no visible note uses one of the fields |
| Stores.RemoteStore.UpsertTableSnapshot | src/sync/supabase.rs:200-222 | table after table until one is not accepted; with every request carried, all nine come through exactly if none leaves a reference missing |
| Stores.RemoteStore.DeleteRemoteActions | src/sync/supabase.rs:263-306 | row after row until one is not accepted; what is gone is a part of what was decided, all of it on success |
| Stores.FetchTableRows | src/sync/supabase.rs:626-670 | fetching page after page returns every row once, in order, whatever the number of rows |
| Service.SyncService.Prepare | src/services/sync.rs:180-188 | the checks before any write let a plan through exactly if synchronization is enabled, the schema versions match and the comparison has no conflict; otherwise the first failed check is reported |
| Service.SyncService.VerifyConverged | src/services/sync.rs:356-390 | succeeds exactly if both sides agree; otherwise the error tells how many actions remain on each side and how many conflicts |
| Service.SyncService.VerifyDirectionConverged | src/services/sync.rs:402-467 | succeeds exactly if a fresh comparison is conflict-free and asks for nothing more in that direction; otherwise the error tells how many actions remain on each side and how many conflicts |
| Service.SyncService.SyncTables | src/services/sync.rs:180-234 | refused calls change nothing; a successful run leaves both sides as decided, agreed, with honest counts; from closed sides over a reliable network it succeeds if and only if no note written to a side points at a field deleted there, as far as references decide (unique names and paths, among them one tag per path and workspace, are not modelled), and a pulled one that does is refused before anything is written; wherever it stops, both sides are in a state `Resume.Resumption` speaks about unless a note lost its field |
| Service.SyncService.Push | src/services/sync.rs:80-110 | the same for a push; a push that succeeds found every pending local deletion to survive the union of the logs, and from closed sides over a reliable network it succeeds if and only if that holds and no note written to a side points at a field deleted there |
| Service.SyncService.Pull | src/services/sync.rs:117-148 | the same for a pull: what is written and when nothing is; from closed sides it succeeds if and only if no pulled note points at a field deleted here, no visible note uses a field deleted remotely, and every pending remote deletion survives; hidden notes that lose their field do not keep it from succeeding |
| Service.SyncService.UpdateSettings | src/services/sync.rs:41-47 | switched off, every later call is refused as disabled; switched on, none is, and a ready call is let through exactly if the sides have no conflict |
| Service.SecondRunWritesNothing | src/services/sync.rs:180-234 | the run after a successful one compares without conflicts, reports nothing and leaves both sides as they are |
| TagPaths.ParseOfJoin | src/repositories/taxonomy.rs:27-36 | parsing a joined list of segments gives the list back |
| TagPaths.ParseIsIdempotent | src/repositories/taxonomy.rs:27-36 | a client string is clean after one pass |
| TagPaths.JoinIsInjective | src/repositories/taxonomy.rs:27-36 | a path names one list of segments |
| TagPaths.ParseOfUnclean | src/repositories/taxonomy.rs:27-36 | white space around a segment is trimmed and the segment kept, a blank part is dropped, at either end of any path |
| TagPaths.ParseOfParted | src/repositories/taxonomy.rs:27-36 | a separator parts any client string in two that are read one after the other |
| Payloads.PayloadRoundTrip | src/repositories/sync/payload.rs:105-240 | the payload logged for a row, parsed by the receiving side, gives the row back, up to what the receiver sets itself |
| Payloads.RequiredTextIsTrimmed | src/repositories/sync/payload.rs:216-221 | a required text is accepted exactly if trimming leaves something of it |
| Ledger.ReplayedIsNotBuried | src/repositories/taxonomy.rs:159-238 | a field or link the log still describes was never deleted |
| Database.Database.RecordSyncChange | src/repositories/sync/mod.rs:83-115 | appends one change with the given entity, operation, revisions and payload, of now, under a new id and the workspace's default device, and brings that device in if it is missing; no other row changes |
| Database.DefaultDeviceTells | src/repositories/sync/mod.rs:170-181 | the default workspace has the default device, any other one a device named after the first eight characters of its id, dashes aside |
| Taxonomy.GetOrCreateField | src/repositories/taxonomy.rs:252-306 | a field of that name afterwards; nothing changes if it was there, otherwise one row and one change are added; fails exactly without the workspace; the store's invariant is kept |
| Taxonomy.GetOrCreateTag | src/repositories/taxonomy.rs:319-401 | the tag of the cleaned path afterwards; a repeat call changes nothing; otherwise exactly the missing stems of the path are added, each with one change, and the forest of unique, prefix-closed paths stays one |
| Taxonomy.DeleteUnusedField | src/repositories/taxonomy.rs:159-238 | deleted and logged exactly if the field is of the workspace and no visible note uses it, with every hidden reference cleared; otherwise the error tells which, with the number of uses, and nothing changes |
| NoteTagging.AttachTag | src/repositories/notes/tags.rs:122-166 | adds exactly this tag to the note; attaching again changes nothing; fails exactly if the string names no tag |
| NoteTagging.DetachTag | src/repositories/notes/tags.rs:169-220 | removes exactly the tag with that path from the note; nothing happens if the note has none |
| NoteTagging.ReplaceNoteTags | src/repositories/notes/tags.rs:223-306 | the tags of the note are exactly the given ones afterwards; nothing but tags, default devices and this note's relations differs; fails exactly if a string names no tag |
| NoteLinking.GetNoteByRef | src/repositories/notes/core.rs:448-480 | finds the one visible note of the workspace whose id starts with the reference; the error tells a short, a malformed, an unknown and an ambiguous one apart |
| NoteLinking.ResolutionTells | src/repositories/notes/core.rs:448-480 | a reference is unknown if no visible note of the workspace has an id that starts with it in either case of its letters, resolved if exactly one has, and otherwise ambiguous |
| NoteLinking.ReferenceErrors | src/repositories/notes/validation.rs:12-25 | a reference is valid exactly with at least four hexadecimal digits; one of fewer than four bytes is too short, whatever its characters |
| NoteLinking.BytesOf | src/repositories/notes/validation.rs:12-15 | the length of a reference counts its bytes, one to four for a character |
| NoteLinking.InsertNoteLinks | src/repositories/notes/links.rs:88-150 | one link per input, to the visible note its reference means; succeeds exactly if every reference means one visible note other than the source |
| NoteLinking.ReplaceNoteLinks | src/repositories/notes/links.rs:153-192 | the outgoing links of the note are exactly the new ones afterwards; no other row differs, default devices aside |
| Notes.CreateNote | src/repositories/notes/core.rs:50-64 | the note with the content, role and times asked for, its first revision with that content, its field, exactly its tags and links, one change per new row, the last two about the note and its revision, and nothing else but tags and default devices; exactly if the workspace is there, the device is known, every string names a tag and every reference means one visible note and not the new one; otherwise nothing changes |
| Notes.CreateNotesBatch | src/repositories/notes/core.rs:71-90 | all notes or none: all exactly if each item can be created from the state the items before it leave, the state each one leaves being told; at the end every note stands with its revision, field, exactly its tags and its links, with one change per new row |
| Notes.UpdateNote | src/repositories/notes/core.rs:486-570 | the note with the new content and time, the field of that name or the one it had, and otherwise as it was; a new revision with that content, logged as based on the previous one; the tags and links asked for, and everything else as it was; exactly if the reference means one visible note, the device is known, every string names a tag and every reference a visible note; otherwise nothing changes |
| Notes.ArchiveNote | src/repositories/notes/core.rs:581-620 | the visible note is archived and updated now and otherwise as it was, its tags, links and revisions stay, and one change tells so; otherwise nothing changes and the error tells why |
| Notes.DeleteNote | src/repositories/notes/core.rs:624-660 | the visible note is deleted and updated now and otherwise as it was, with one deletion change; the row stays |
| Notes.AddTagToNote | src/repositories/notes/tags.rs:69-90 | adds exactly this tag to the note the reference means, exactly if there is one and the string names a tag; otherwise nothing changes |
| Notes.RemoveTagFromNote | src/repositories/notes/tags.rs:95-118 | removes exactly the tag of that path from the note the reference means |
| Sides.StoreIsASide | src/repositories/sync/write_snapshot.rs:17-58 | every reachable state of the note store is soundly keyed, keeps its references, has tags below their parents and the recorded changes as its log: what the results on synchronization ask of a side |
| Sides.DeletionIsKept | src/sync/diff.rs:836-846 | a deleted field or link counts as deleted in a comparison if and only if nothing else in the log about it is of a later second, or of the same second with a larger id |
| Sides.CreateThenDelete | src/repositories/sync/mod.rs:83-115 | a field created and deleted within one second: the deletion counts exactly if its change drew the larger id |
| Sides.ForgottenDeletion | src/sync/diff.rs:782-800 | a reachable state of the store whose log has the field deleted while the comparison takes it for present |
| Sides.LostDeletionComesBack | src/sync/diff.rs:660-711 | such a deletion is undone by the next run with a side that still has the field: the field is on both sides again |
| Apply.FindWinner | src/repositories/sync/apply.rs:329-357 | finds the revision that is latest by creation time, then by device, none counting as the empty one, then by id; none exactly without revisions |
| Landing.NoteLands | src/repositories/sync/apply.rs:205-234 | a change of a note, after any batch, gives it content, role, field, times and revision of the payload; of a note that is there the workspace, creation time and bookkeeping stay; nothing else changes but the log, with the change's own creation time, and its device; it is set aside exactly if the workspace or the field is missing |
| Landing.InsertLands | src/repositories/sync/apply.rs:175-298 | a field, tag, tag relation or link of the payload is there if its key was free; under a taken key nothing changes; without what it points at the change is set aside |
| Landing.DetachLands | src/repositories/sync/apply.rs:269-280 | exactly that tag relation is gone |
| Landing.LinkDetachLands | src/repositories/sync/apply.rs:299-307 | exactly that link is gone, if it is of the workspace |
| Landing.RevisionLands | src/repositories/sync/apply.rs:235-255 | the revision of the payload is there and its note points at its latest one, updated no earlier than now; set aside without what it points at, or under the key of another note's revision while its own note has none |
| Landing.ReadableIsTold | src/repositories/sync/apply.rs:170-316 | every readable change is one of these, and its payload has every attribute the row needs |
| Landing.UnreadableLands | src/repositories/sync/apply.rs:39-58 | a change that is no JSON or of a pair nothing is done about is logged and set aside for that reason |
| Apply.ExactlyOnce | src/repositories/sync/apply.rs:23-66 | a batch counts its distinct new ids and logs exactly those; applied again, whenever and in whatever order, it counts nothing and changes nothing |
| Apply.BadChangesAreSetAside | src/repositories/sync/apply.rs:39-58 | a new change whose payload is no JSON, lacks something required, or whose type and operation nothing is done about becomes a recorded conflict, is logged, and stops nothing |
| Apply.OnlyNewChangesAreSetAside | src/repositories/sync/apply.rs:39-58 | earlier conflicts stay, and every added one is about a new change of the batch |
| Apply.OrderIndependentWinners | src/repositories/sync/apply.rs:329-357 | new revisions of notes that are there, each from a device known or brought in by its own change, applied in any two orders leave the very same state: every revision is there, and every note they touch points at the one that beats all of its revisions |
| Apply.Inbox.ApplyRemoteChanges | src/repositories/sync/apply.rs:23-66 | the batch as one fold over its changes; without the workspace changes go to, a change not known here stops it and nothing is taken |
| Paging.ListRecentNotes | src/repositories/notes/core.rs:125-199 | visible notes of the workspace and role, updated earlier than the cursor note or in the same second with a smaller id, later updates first and larger ids first within a second; a note left out comes after all of a full page; a cursor that is not 32 hexadecimal digits is told from one that names no visible note |
| Paging.FollowCursors | src/repositories/notes/core.rs:125-199 | following the cursors with any limit of at least one and any role ends and gives exactly the visible notes, each once, later updates first and larger ids first within a second, if and only if the last id of every page is a full one; otherwise it ends in a validation error |
| Paging.FullIdsTurn | src/repositories/notes/validation.rs:36-49 | in a store whose ids have 32 digits every cursor is accepted |

## How to read the model

* Entity types, operations and payload attributes are enumerations with an `Other` case for any other text. Payloads
  are parsed JSON; the conversion between stored text and JSON is taken to be the identity, as payloads are canonical.
* The comparisons of notes and of the other row tables share one method, `CompareRow`; the source has two with the
  same steps. Rows are hashed by table and key in one map.
* Clocks and random ids are parameters: every operation takes the current second, and the ids come from any supply
  that does not repeat itself and gives hexadecimal digits (`Database.mint`). Their length is not fixed to 32;
  `Paging.FollowCursors` tells what that means for cursors.
* The schema and its migrations (`vendor/zembra-schema`) are not part of this model. What is known of it here: foreign
  keys are on (src/repositories/database.rs:44) and the field reference of a note is a composite key with the
  workspace (docs/request-clarify/r036-field-delete-api.md:13). `ForeignKeys.Resolved` lets every reference but those
  to workspaces and devices stay within one workspace. Revision and change ids in rows are not followed, since their
  rows may be written later.
* The remote side is an object with keyed upsert, delete and read. `Service.Network` says which requests get through;
  those that do are refused only if they would leave a reference missing.
* Where the design document on lifecycles (docs/design-docs/r037-sync-entity-lifecycle.md) and the code differ, the
  model follows the code: rows that differ with equal times always conflict; a row present beside its own tombstone is
  no conflict; the absent side's own newest change decides a deletion; upserts all come before deletions; and a note
  that still uses a field to be deleted makes the write fail instead of the comparison conflict.

What the results on synchronization ask of the two sides is what a caller could check, and is kept by the operations
where that is possible: rows under their own keys and ids without a colon (`Sound`), references that hold within one
workspace (`Resolves`), tags below their parents (`TagsRanked`), rows that do not move between workspaces
(`OwnersAgree`), deletions that are the last word about a field, note tag or note link across both logs
(`TombstonesLast`), and, where rows were pulled, none of them in a workspace nothing uses here (`PullSparesUnused`,
which follows if remote rows have their workspaces). Where one of them is not asked for, or is an exact condition, the
row says so.

## Left out

- HTTP handlers, configuration, logging, service installation and the command line: plumbing around the modelled
  calls.
- Request building, headers and row decoding of the Supabase client: the remote side is an object.
- Changes by others between the reading of a snapshot and the writing, and the nine separate reads of one snapshot:
  each read and each write phase is one step.
- Unique names and paths in the tables the inbox and the synchronization write: `Apply` and `Stores` know primary keys
  and foreign keys, not the unique indexes on workspace and name or workspace and path.
- How the remote database reacts to the deletion of a field a remote note still uses: the request counts as refused.
- Apply.OrderIndependentWinners: is about batches of new revisions of notes that are there; a revision that arrives
  before its note, or whose payload names a device only another change of the batch brings in, becomes a conflict, so
  there the order does matter.
- Replaying a created note through the inbox: its tags are logged before the note, so the replay would set them aside;
  the agreement of log and tables is stated for the log as a fold.
- The base revision of a note revision: the logged payload carries it and the inserted row does not, so
  `Ledger.Matches` leaves it open.
- The sync cursors, the outbox and the status rows: bookkeeping the table synchronization does not read.
- Random and daily queries, visible link lists and field and tag lists: reads that only filter and sort.
