# Verification of q8s

A Dafny model of the hard parts of q8s, a single-node Kubernetes-like API server, with proofs of what
those parts promise. `dafny verify dfyconfig.toml` checks everything.

Code that changes things step by step is modelled as methods, loops and classes, and each method is
proved against a specification function; the promises are then proved about that function. Code that
only computes is modelled by functions. What an operation is meant to do is also stated apart from the
definitions it is modelled by, in terms of what goes in and what comes out, with keys, lines, bounds
and bytes spelled out: that is what `MergeDirectives`, `CronSyntax`, `StoreOperations`,
`NodePortRequests`, `UnitOwnership`, `PodImports`, `SwaggerReferences` and `WebSocketBytes` are for. Wherever the program ranges over a Go map the model makes an
arbitrary choice (`:|`), so what is proved holds for every iteration order.

| modules | what they model |
|---|---|
| `StrategicMerge`, `MergeInPlace`, `MergeOrder`, `MergePatch`, `NamedLists`, `MergeIdempotence`, `IdempotenceCondition`, `MergePanics`, `MergeDirectives`, `ElementOrder`, `StableSort` | strategic merge patch: the definition, the in-place algorithm, and its laws |
| `JsonPointer`, `JsonPatch`, `GoValues`, `PatchInPlace`, `PatchLayouts`, `PatchCycles`, `PatchRun` | JSON Patch on Go's maps and slices in place, copied containers included |
| `Rfc6902`, `PatchRefinement`, `PatchMoves`, `PatchSoundness`, `PatchTwins`, `PatchSharing` | the same against RFC 6902: where it agrees, and exactly where not |
| `ServerSideApply` | server-side apply, compiled to JSON Patch |
| `CronField`, `CronSyntax`, `CronCalendar`, `CronTranslation` | the grammar of cron fields, the cron to systemd-calendar compiler and the meaning of both languages |
| `SaveProtocol`, `SaveProgress`, `StoreState`, `Store`, `StoreOperations`, `StoreHistory`, `Watch`, `WatchExactness` | the versioned store, its persistence under concurrency, and the watch endpoint |
| `NodePorts`, `NodePortServer`, `NodePortRequests` | NodePort allocation over runs of Service and Pod requests |
| `UnitFiles`, `UnitOwnership`, `PodReconcile`, `PodImports` | convergent deployment of quadlet files, reconciliation with live containers |
| `Swagger`, `SwaggerReferences` | the reference closure of the schema trimmer |
| `WebSocket`, `WebSocketBytes`, `UnitLine` | the frame codec and the unit-file line codec |
| `Wrappers`, `Text`, `Seqs`, `Json`, `Documents` | the parts of the Go libraries and of decoded JSON the others build on |

## Where the code does not do what it is for

Each of these is stated as a condition that holds if and only if the promise does, while the model
keeps the code as it is.

- A cron schedule with both day fields restricted loses its month in the weekday line, and a weekday
  field that selects all seven days loses its line. Minute and hour ranges, a stepped star behind the
  first list element, and steps beyond the end of the field (`*/60`, `30/40`, hour `*/24`) are passed
  on as text that systemd refuses (`internal/quadlet/generator.go:634-708`,
  `CronTranslation.TranslationTheorem`).
- A POST of a Service whose body names another namespace than the URL cleans up by the URL's namespace
  when it is rejected, so the rejected Service stays stored with its ports
  (`internal/server/handler.go:919-938`, `NodePorts.PostServiceSafety`).
- A list element whose `name` is not a string makes `mergeNamedArray` panic on some document
  (`internal/server/handler.go:3604`, `MergePanics.PanicsExactly`).
- Re-applying an overlay changes the result on some document if a list that can be merged by name
  repeats a name or has a null in an element (`IdempotenceCondition.IdempotentExactly`): the null is
  stored when the element is new and deletes a member the second time.
- JSON Patch refuses to add or replace at a list index and to write the whole document
  (`PatchSoundness.StepRefinesRfc6902`). It reads indices such as `01` and `+1`, which RFC 6901
  forbids, lets an element move into the one that takes its place, and lets a container be copied to
  below itself: `PatchSoundness.SoundExactly` says for which operations that can happen on some
  document. It carries out some malformed operation objects (`PatchSoundness.MissingValueShows`).
- A container that JSON Patch has copied stays one container in two places. What later changes below
  one of them shows at the other, except that a list keeps its length there: an appended element does
  not show, and after a removal the last element stands there twice (`PatchSharing.CopyThenChange`,
  `PatchSharing.SharedWriteShows`). Copied to below itself it leaves no JSON value
  (`PatchCycles.CyclicIsNoJson`). Runs without such operations are as RFC 6902 has them
  (`PatchRun.ApplyJSONPatch`, `PatchSoundness.PatchRefinesRfc6902`).
- A frame whose 64-bit length has its top bit set passes the size check as a negative number and
  panics in the allocation (`internal/server/exec.go:114-127`, `WebSocket.HugeLengthPanics`).
- A watch of namespaces does not tell a deleted default namespace from the phantom that is listed
  while pods are left in it, as both have an empty version; it is exact if and only if it does not
  select objects without labels (`WatchExactness.NamespacesExactly`). The status a Deployment shows in
  a namespaced listing can change under an unchanged version: such a watch is exact if and only if the
  status derived for one version is always the same, and with the status the server derives, if and
  only if the watch can select no Deployment (`WatchExactness.DeploymentsExactly`,
  `WatchExactness.LiveWatchExactly`). All other watches are exact (`WatchExactness.WatchesExactly`).
- A pod label `q8s.io/template-hash` is written out in front of the hash line the program adds, and is
  then taken for the unit's hash: while it stays the same, no change anywhere in the unit is deployed,
  in front of the label or behind it (`UnitFiles.DeployConverges`, `UnitFiles.OwnHashLabelSticks`,
  `UnitFiles.LabelledContainerSticks`).

## Model

| member | source | states |
|---|---|---|
| MergeInPlace.JsonMerge | internal/server/handler.go:3380-3475 | the in-place merge, meeting map keys in any order, leaves exactly the document (or the panic, or the delete signal with the base untouched) that the order-free definition gives |
| MergeInPlace.ScanDirectives | internal/server/handler.go:3380-3406 | whatever the key order, every directive is found under its field and nothing else is |
| MergeInPlace.MergeMembers | internal/server/handler.go:3413-3449 | the member loop ends with every member merged once, or fails exactly when some member's merge panics |
| MergeInPlace.ApplyDirectives | internal/server/handler.go:3451-3474 | deletions of primitives, then ordering, then retained keys, in that order, field by field |
| MergeInPlace.ListWithoutPatchMarkers | internal/server/handler.go:3478-3489 | exactly the elements without a patch marker, in order |
| MergeInPlace.DeletePrimitiveValues | internal/server/handler.go:3528-3543 | exactly the elements equal to no listed value, in order |
| MergeInPlace.MergeNamedArray | internal/server/handler.go:3547-3632 | merging into the cells of the base list gives the defined list; when it falls back, no base element has changed |
| MergeInPlace.IndexBase | internal/server/handler.go:3582-3599 | fails exactly when a base element has no string name; otherwise each undeleted name leads to its last cell, names in base order |
| MergeInPlace.MergeIntoCell | internal/server/handler.go:3603-3618 | one overlay element merged into a shared cell or a new element does what the value-level step does |
| MergeOrder.KeyOrderIsIrrelevant | internal/server/handler.go:3413-3449 | every enumeration of the overlay's keys gives the same document and the same return value |
| MergeDirectives.MergeObeys | internal/server/handler.go:3380-3475 | for every base and overlay: the result is that of the same overlay without its instructions, on an empty object under `$patch: replace`; of it exactly the members in `$retainKeys` stay, and each list lacks exactly the values of its `$deleteFromPrimitiveList`, in order, and is sorted stably by its `$setElementOrder`; `$patch: delete` is answered without a result |
| MergeDirectives.ReplaceForgets | internal/server/handler.go:3407-3411 | under `$patch: replace` the result does not depend on the base |
| MergeDirectives.MembersMerge | internal/server/handler.go:3413-3449 | without instructions on the object itself, member by member: null deletes, an object is merged or asks for its own deletion, a list is merged or replaced without its markers, anything else is stored |
| MergeDirectives.ListReplaced | internal/server/handler.go:3547-3555 | an element with `$patch: replace` makes the overlay's list take the place of the base's, without the marker elements |
| MergeDirectives.ListNotNamed | internal/server/handler.go:3557-3592 | lists are merged by name if and only if every overlay element has a name or says to delete, and every base element has a name that is a string |
| MergeDirectives.ListNames | internal/server/handler.go:3557-3600 | a name is in the merged list if and only if base or overlay has it and no element says to delete it |
| MergeDirectives.RankIsLastMention | internal/server/handler.go:3491-3525 | elements with names are ranked by name, others by value, at their last mention in the directive, and behind all entries without one |
| MergePatch.MergesAsRfc7396 | internal/server/handler.go:3413-3449 | a directive-free overlay merges into every document as MergePatch of RFC 7396 section 2 does if and only if each of its lists has an element that is not an object with `name` |
| MergePatch.MergeIsMergePatch | internal/server/handler.go:3413-3449 | the positive half, for every base object, at every depth |
| MergePatch.NamedListShows | internal/server/handler.go:3557-3580 | for every other overlay, a base object on which the two differ |
| MergeIdempotence.MergeIsIdempotent | internal/server/handler.go:3413-3449 | re-applying an overlay without directives, with distinct string names and without nulls in named lists changes nothing, whatever the document |
| MergeIdempotence.SelfMerge | internal/server/handler.go:3413-3449 | a null-free document merged into itself is itself, through nested named lists |
| MergeIdempotence.ListTwice | internal/server/handler.go:3547-3632 | merging a named list a second time gives the list of the first time |
| IdempotenceCondition.IdempotentExactly | internal/server/handler.go:3413-3449 | for overlays without directives: merging succeeds on every document and merging again changes nothing if and only if the lists that can be merged by name have distinct string names and no nulls |
| MergeIdempotence.NullInListElementIsNotIdempotent | internal/server/handler.go:3601-3631 | the smallest such overlay, with a null in a list element |
| NamedLists.NamedListLaw | internal/server/handler.go:3547-3632 | the result lists base survivors in base order, then new overlay names by first appearance, each once, holding the base element with the overlay's elements of that name merged in |
| NamedLists.ResultNamesLaw | internal/server/handler.go:3557-3600 | result names are distinct, and a name is present exactly when base or overlay has it and no delete marker names it |
| NamedLists.NamedListNames | internal/server/handler.go:3601-3631 | unless `$retainKeys` drops it, every result element carries the name it is listed under |
| MergePanics.PanicsExactly | internal/server/handler.go:3601-3618 | for overlays without directives whose lists repeat no name: no document makes the merge panic if and only if the lists that can be merged by name, at every depth, have only string names |
| NamedLists.NonStringNamePanics | internal/server/handler.go:3604-3604 | a list that is merged by name panics on every overlay element whose name is not a string |
| ElementOrder.OrderElementsLaw | internal/server/handler.go:3506-3525 | a list is the reordered one if and only if directive ranks ascend and elements of equal rank keep their order; it is a permutation |
| ElementOrder.RankBelowIsLastMention | internal/server/handler.go:3507-3510 | an element ranks at the last directive entry with its key, and behind all entries when there is none |
| StableSort.SortCharacterized | internal/server/handler.go:3513-3524 | sortedness and stability leave one result, so the library's algorithm does not matter |
| JsonPointer.ParsePathInvertsRender | internal/server/jsonpatch.go:112-147 | a path parses to exactly the tokens whose RFC 6901 rendering it is; every other path is an error |
| JsonPointer.Parse | internal/server/jsonpatch.go:112-147 | the loop over segments and escape characters computes that parse |
| PatchRun.PatchGet | internal/server/jsonpatch.go:150-170 | the loop down a document of Go maps and slices, some of them in two places, finds the value the path means, in place |
| PatchInPlace.PatchSet | internal/server/jsonpatch.go:176-220 | writes through nested maps and slice arrays in place, changing only the objects on the path; afterwards the slot at the path is the given value, everything else is where it was, and the document holds the defined value; an error changes nothing |
| PatchInPlace.PatchRemove | internal/server/jsonpatch.go:225-268 | deletes in place, changing only the objects on the path, elements behind moving down in their array; what is left and what was removed share no object; an error changes nothing |
| PatchInPlace.Append | internal/server/jsonpatch.go:201-205 | append writes behind the last element if the array has room and otherwise leaves it alone and moves to a new one; it holds the same list either way |
| PatchRun.ApplyJSONPatch | internal/server/jsonpatch.go:27-108 | runs the operations on the caller's document in place and leaves the value the definition gives, also after containers were copied, while no operation writes below a place of a copied one; on an error the value is what the earlier operations, and the removal half of a failing move, left |
| JsonPatch.ClearIsNotBelow | internal/server/jsonpatch.go:176-220 | a write goes into no copied container if and only if none of the places where those stand is a proper prefix of the location written |
| JsonPatch.ErrorLeaves | internal/server/jsonpatch.go:23-108 | a patch that ends with an error leaves what the operations in front of the failing one made of the document, and a failing move's removal |
| PatchRun.Copy | internal/server/jsonpatch.go:86-102 | the slot found is put in a second place; the document then holds the value the definition gives, or, if the target lies inside the source, no layout describes it |
| PatchRun.Move | internal/server/jsonpatch.go:71-85 | the removed value is put back elsewhere; when that fails the removal stands |
| PatchLayouts.AvoidsUnlessBelow | internal/server/jsonpatch.go:86-102 | a copy changes no object of what it copies unless the target lies inside the source, or is the end of the source list itself in an array with room |
| PatchSharing.CopyThenChange | internal/server/jsonpatch.go:86-102 | after a copy of a container to a place apart from its own, the end of a list included, an addition, replacement or removal below either place changes the container at both, where at the place not named a list keeps its length: it lacks what was appended, and after a removal has the later elements moved down and the last one twice |
| PatchSharing.SharedWriteShows | internal/server/jsonpatch.go:86-102 | RFC 6902 gives the document changed at the one place named; the server's is the same if and only if the operation leaves the container as it was, or appends to the list itself, or removes one of its elements from where on all are equal |
| PatchCycles.CyclicIsNoJson | internal/server/jsonpatch.go:86-102 | putting a container to below itself leaves a document that no layout describes, so no JSON value |
| GoValues.DeepEqual | internal/server/jsonpatch.go:68-70 | the recursive comparison of two values decides their equality as JSON |
| PatchSoundness.SoundExactly | internal/server/jsonpatch.go:28-106 | whenever the server succeeds with an operation, on whatever document, RFC 6902 gives the same document, if and only if the operation is sound: read off its paths, no list index that only the server reads, no move or copy to below itself that the server could carry out |
| PatchSoundness.PatchRefinesRfc6902 | internal/server/jsonpatch.go:27-108 | if a patch of sound operations ends with a document, it is the one RFC 6902 evaluation gives, copies of containers on the way included |
| PatchSoundness.StepRefinesRfc6902 | internal/server/jsonpatch.go:28-106 | one sound operation with indices of at most 64 bits succeeds if and only if RFC 6902 section 4 makes it succeed and its write is supported, with the same document |
| PatchRefinement.GetIsEvaluate | internal/server/jsonpatch.go:150-170 | reading a canonical path is RFC 6901 evaluation, errors included |
| PatchRefinement.SetIsAddAt | internal/server/jsonpatch.go:176-220 | adding is section 4.1 of RFC 6902 exactly where the server supports the location, and an error elsewhere |
| PatchRefinement.SetIsReplaceAt | internal/server/jsonpatch.go:176-220 | replacing is section 4.3 exactly where the server supports the location, and an error elsewhere |
| PatchRefinement.DeleteIsRemoveAt | internal/server/jsonpatch.go:225-268 | removing is section 4.2, errors included, and returns the value that was there |
| PatchRefinement.NonCanonicalIndexShows | internal/server/jsonpatch.go:250-258 | for every index text the server reads and RFC 6901 forbids, a list on which they differ |
| PatchSoundness.MoveIntoOwnChildShows | internal/server/jsonpatch.go:71-85 | a move to below its own source, which section 4.4 forbids, is refused on every document if and only if the source is the whole document or a member of it, or its last segment can be no index |
| PatchSoundness.MissingValueShows | internal/server/jsonpatch.go:28-105 | a malformed operation object succeeds on some document if and only if it is an addition or replacement without its value, a copy without its source, or a test without its value, or without its path and with an object to compare with |
| PatchSoundness.MissingMembersDefault | internal/server/jsonpatch.go:28-105 | every operation object is read as the well-formed one with an empty path or source for a missing one and null for a missing value |
| PatchSoundness.WellFormedDecodes | internal/server/jsonpatch.go:28-105 | a well-formed operation object is read as the operation it spells |
| ServerSideApply.ApplyPatchOps | internal/server/apply.go:176-211 | the loops over sections and metadata fields emit the defined patch |
| ServerSideApply.ApplyReachesTarget | internal/server/apply.go:176-211 | the compiled patch never fails and takes any current object to exactly the target |
| ServerSideApply.ReapplyIsNoOp | internal/server/apply.go:176-211 | compiling and running the same apply on the result changes nothing |
| ServerSideApply.TargetReads | internal/server/apply.go:168-211 | applied sections, labels and annotations are taken whole, omitted data-like ones go, an omitted spec stays, every other member and every other metadata member stays |
| ServerSideApply.ApplyReads | internal/server/apply.go:184-192 | running the compiled patch: `spec`, `data`, `binaryData` and `stringData` are the applied ones as a whole, or gone when left out, but never the spec; every other member is as it was |
| ServerSideApply.ApplyReadsMetadata | internal/server/apply.go:194-209 | labels and annotations are the applied ones or gone, and all other metadata is as it was |
| CronTranslation.TranslationTheorem | internal/quadlet/generator.go:634-708 | for an accepted schedule, an instant matches some emitted calendar exactly when it matches the schedule, at all instants of all dates the calendar has, if and only if the schedule is translatable; a line with a repetition beyond its component matches nothing |
| CronTranslation.TranslationPreservesMeaning | internal/quadlet/generator.go:634-708 | the positive half, instant by instant |
| CronTranslation.UntranslatableShows | internal/quadlet/generator.go:634-708 | for every other accepted schedule, an instant on a date the calendar has at which the two differ |
| CronTranslation.CalendarsMeaning | internal/quadlet/generator.go:694-707 | what the emitted lines mean, in terms of the cron fields, whether translatable or not |
| CronTranslation.TimeFieldMeaning | internal/quadlet/generator.go:641-652 | a time field keeps its meaning exactly when it is expressible: a star, or values and steps that systemd reads and that come round within the field; otherwise systemd refuses the whole component |
| CronTranslation.DateFieldMeaning | internal/quadlet/generator.go:654-670 | the explicit list matches the values the cron field matches |
| CronTranslation.WeekdaySpecMeaning | internal/quadlet/generator.go:672-692 | the weekday prefix, renumbered from Sunday-0 to Monday-1, selects cron's days and is empty exactly for all seven |
| CronField.ExpandIsMatches | internal/quadlet/validate.go:165-215 | the expansion lists exactly the values the field matches, all within bounds |
| CronField.ExpandCronField | internal/quadlet/validate.go:165-215 | the nested loops compute the expansion, or fail on the same fields |
| CronSyntax.FieldMeaning | internal/quadlet/validate.go:165-215 | a field written as elements (`*`, `a` or `a-b`, each with `/s` or without) expands if and only if each element lies within bounds, does not descend and steps by at least one; it matches exactly the values that some element selects: from its lower to its upper end, `s` apart |
| CronSyntax.ExpansionMeaning | internal/quadlet/validate.go:165-215 | and the expansion lists exactly those values |
| CronSyntax.AcceptedExactly | internal/quadlet/validate.go:139-215 | the validation accepts exactly the texts of such elements |
| CronSyntax.ScheduleAccepted | internal/quadlet/validate.go:139-158 | and exactly the schedules of five such fields, within 0-59, 0-23, 1-31, 1-12 and 0-7 |
| CronSyntax.WeekdayNumber | internal/quadlet/generator.go:672-692 | a single weekday is written in systemd's count, where Sunday is 7 |
| CronCalendar.ValidateCronSchedule | internal/quadlet/validate.go:139-158 | accepts exactly five fields of cron characters that each expand within their bounds |
| CronCalendar.Compile | internal/quadlet/generator.go:634-708 | the builder code emits the defined calendars for every input text |
| SaveProtocol.StepKeepsInv | internal/store/store.go:297-334 | every step of every saver keeps mutual exclusion, the temporary file's ownership, and that the last saving mutation is on disk or still owed, unless the last attempt failed |
| SaveProtocol.FileNeverGoesBack | internal/store/store.go:297-376 | over all interleavings, failing writes included, the file holds a state the store was in, and never an older one than before |
| SaveProtocol.QuiescentFileIsCurrent | internal/store/store.go:297-376 | with no saver pending and the last one in the critical section successful, whatever failed before, the file holds the state of the last saving mutation or a later one |
| SaveProtocol.RenamesOwnSnapshot | internal/store/store.go:301-334 | a saver renames the snapshot it took itself, and no other saver is inside the critical section |
| SaveProgress.SaversCanFinish | internal/store/store.go:297-334 | from every state that runs can reach, failed writes included, the pending savers can all finish, and the file then covers the last saving mutation |
| Store.Store.constructor | internal/store/store.go:193-197 | a new store is empty but for the default namespace |
| Store.Store.Load | internal/store/store.go:201-264 | rebuilds the maps from the snapshot's lists in order |
| Store.Store.Create | internal/store/store.go:622-644 | refuses a taken key and changes nothing; otherwise stores the object under its own key with the next version, a derived UID and, for a Deployment, generation 1 |
| Store.Store.Update | internal/store/store.go:1909-1936 | refuses an unknown key; otherwise keeps the UID, takes the next version, and counts a Deployment's generation up exactly when its spec changed |
| Store.Store.Delete | internal/store/store.go:659-673 | removes the object and leaves the version counter alone |
| Store.Store.PurgeNamespace | internal/store/store.go:526-593 | removes, in any order, exactly the namespaced objects of the namespace |
| Store.Store.SyncPodTemplate | internal/store/store.go:699-724 | replaces spec and template under a new version, or leaves an equal one alone |
| Store.Store.SetStatus | internal/store/store.go:742-791 | a changed status takes a new version, an unchanged one does not |
| Store.Store.TakeSnapshot | internal/store/store.go:337-376 | lists every object once, in some order, with the counter |
| StoreOperations.CreateStores | internal/store/store.go:622-644 | refused where there is an object; else the request's content is stored under the next version, with a UID made of its place and a Deployment's first generation, and every other object is as it was |
| StoreOperations.UpdateStores | internal/store/store.go:1909-1936 | refused where there is none; else the request's content is stored under the next version and the old UID, a Deployment's generation going up exactly when its spec is another, and every other object is as it was |
| StoreOperations.SyncStores | internal/store/store.go:699-724 | spec and template are the request's and the rest of the pod is as it was, under a new version; nothing changes if they are equal |
| StoreOperations.StatusStores | internal/store/store.go:742-791 | the status is the request's and the rest of the object is as it was, under a new version; nothing changes if it is equal |
| StoreOperations.FillStores | internal/store/store.go:742-791 | container statuses filled in without a new version change nothing but the status |
| StoreOperations.DeleteRemoves | internal/store/store.go:659-673 | the object is gone and every other one is as it was |
| StoreOperations.PurgeEmpties | internal/store/store.go:526-593 | nothing lies in the namespace afterwards, and everything outside it, the Namespace itself included, is as it was |
| StoreOperations.ReloadKeeps | internal/store/store.go:201-264 | a restart keeps every object; a Secret's StringData is laid over its Data and cleared, and a missing default namespace is put back |
| StoreOperations.StaysStored | internal/store/store.go:201-264 | over every run an object stays as it is while no step is about it, over restarts too unless it is a Secret |
| StoreOperations.LastUpdateIsRead | internal/store/store.go:1225-1239 | over every run, what an update was given is what is stored until another step is about the object |
| StoreHistory.VersionsAreDistinct | internal/store/store.go:389-392 | over every run of operations and restarts, versions lie in 1..counter and are pairwise distinct across all kinds, the untouched default namespace excepted |
| StoreHistory.ApplyInv | internal/store/store.go:457-593 | every operation keeps the history invariant, including that every key is the object's own namespace and name |
| StoreHistory.ObjectLife | internal/store/store.go:1880-1936 | during an object's life its UID stays, its version never falls, and a Deployment's generation never falls and determines its spec |
| StoreHistory.VersionIdentifies | internal/store/store.go:389-392 | an object carrying a version an earlier state already knew was stored in that state, unchanged, even across deletion and recreation |
| StoreHistory.SnapshotLoadRoundTrip | internal/store/store.go:201-264 | loading a snapshot of a reachable store rebuilds it whatever the order of its lists, up to folded StringData and the default namespace |
| StoreHistory.ReloadTwice | internal/store/store.go:274-295 | after one restart, snapshot and load are exact inverses |
| Watch.Watcher.WakeUp | internal/server/handler.go:249-274 | a round's events, replayed by a client, are each meaningful to it and give exactly the server's new bookkeeping; nothing is reported twice or for an unchanged version |
| Watch.Watcher.constructor | internal/server/handler.go:223-226 | the watch starts from the initial listing |
| Watch.SessionFollowsStore | internal/server/handler.go:217-275 | after every wake-up of a session on any listing the client's mirror has exactly the keys and versions listed at that moment, and what those versions stand for |
| WatchExactness.WatchesExactly | internal/server/handler.go:157-275 | over all runs, sessions and rounds the mirror of a watch of one of the twelve stored kinds is the listing of the moment, if and only if, of namespaces, it does not select objects without labels and, of the Deployments of one namespace, their derived status is steady |
| WatchExactness.NamespacesExactly | internal/store/store.go:397-454 | a watch of namespaces is exact if and only if its selector refuses objects without labels, as the untouched default namespace and every phantom are |
| WatchExactness.DeploymentsExactly | internal/server/handler.go:1555-1564 | a watch of the Deployments of one namespace is exact if and only if the status derived for one version of a listed Deployment is the same in any two states of a run |
| WatchExactness.LiveWatchExactly | internal/server/handler.go:1532-1549 | with the status derived from the pods running at the moment, that is so if and only if the watch can select no Deployment |
| WatchExactness.SessionMirrorsStore | internal/server/handler.go:217-275 | in every session on such a listing the mirror holds exactly the objects listed after every round |
| Watch.MirrorFollowsStore | internal/server/handler.go:249-274 | one round takes a mirror of any earlier state to one of the current state, in keys, versions and what the versions stand for |
| Watch.JoinedKeyIsUnique | internal/server/handler.go:217-217 | the joined key tells namespace and name apart |
| Watch.ListingShows | internal/store/store.go:397-454 | what is listed: the stored objects of the kind and namespace, and of namespaces also each one that only has objects, with nothing but its name |
| NodePorts.AllocateIsLeastFree | internal/store/store.go:2060-2067 | the allocator returns the least free port of the range, or 0 exactly when the range is exhausted |
| NodePorts.RunsAreSafe | internal/server/handler.go:892-942 | over every run of Service and Pod creations and deletions, nodePorts lie in the range, no two NodePort Services share one, and none equals a stored hostPort |
| NodePorts.PostServiceSafety | internal/server/handler.go:892-942 | a Service POST keeps every safe host safe if and only if the Service names the URL's namespace or has no node ports |
| NodePorts.ForeignNamespaceIsUnsafe | internal/server/handler.go:919-938 | for every other Service, a safe host that the POST makes unsafe |
| NodePortRequests.PortsAreGiven | internal/server/handler.go:3912-3933 | ports are given if and only if each one asked for lies in 30000-32767 and no other Service or pod has it, and, if one is left open, some port is free; those asked for are given as asked, the others are the least free one |
| NodePortRequests.ServicePosted | internal/server/handler.go:892-942 | a Service is stored if and only if there is none, its ports can be given and it selects at most one pod of its namespace; it is stored with the given ports and otherwise as posted, nothing else changes, and a refusal leaves the host as it was if the Service names the URL's namespace |
| NodePortRequests.PodPosted | internal/server/handler.go:659-676 | a Pod is stored if and only if there is none and no port it takes on the host is a NodePort Service's |
| NodePortRequests.Deleted | internal/store/store.go:659-673 | deleting a Service or a Pod removes that one object |
| NodePortServer.Server.NodePortInUse | internal/store/store.go:2032-2055 | the loops find exactly the ports that another Service, of whatever type, or a pod on the host claims |
| NodePortServer.Server.AllocateNodePort | internal/store/store.go:2060-2067 | the scan computes the allocator's result |
| NodePortServer.Server.AssignNodePorts | internal/server/handler.go:3912-3933 | explicit ports are checked, unset ones allocated, port by port, up to the first error |
| NodePortServer.Server.ServiceNodePortConflict | internal/server/handler.go:3858-3877 | a conflict exactly when a nodePort is some pod's hostPort |
| NodePortServer.Server.PodNodePortConflict | internal/server/handler.go:3882-3901 | a conflict exactly when a hostPort is some NodePort Service's nodePort |
| NodePortServer.Server.PostService | internal/server/handler.go:892-942 | the handler with its five exits leaves the host the request function gives |
| NodePortServer.Server.PostPod | internal/server/handler.go:659-676 | a conflicting or duplicate pod is refused and changes nothing |
| UnitFiles.HashReadBack | internal/quadlet/generator.go:32-40 | the hash read back from a labelled unit is the hash of its source if and only if the main section has no other hash line in front |
| UnitFiles.RenderedHash | internal/quadlet/generator.go:32-40 | the hash read back is that of the source, or that of the first hash line its main section already had |
| UnitFiles.Directory.WriteTracked | internal/server/handler.go:363-380 | writes exactly the files not already there with the same non-empty hash, and reports exactly those |
| UnitFiles.Directory.RemoveStale | internal/server/handler.go:429-467 | removes exactly the unkept files that carry all three ownership lines, and reports whether there were any |
| UnitFiles.Directory.DeployPodFiles | internal/server/handler.go:305-316 | writing and then cleaning up leave the directory the deploy function gives, and report what was written and whether anything was removed |
| UnitFiles.DeployConverges | internal/server/handler.go:305-316 | after a deploy the files outside the rendered names with all three ownership lines are gone and every other file is untouched; the rendered names hold the rendered content if and only if no file recognised by its hash had another content |
| UnitFiles.RenderedFilesConverge | internal/server/handler.go:305-316 | units rendered without a hash line of their own converge, if hashes do not collide |
| UnitFiles.OwnHashLabelSticks | internal/server/handler.go:363-380 | of one file, rendered before from any source and now from any other: the new content is deployed if and only if the hashes the two are recognised by differ or are empty, or the two are the same; it is reported written exactly in the first two cases |
| UnitFiles.LabelledContainerSticks | internal/quadlet/pod.go:257-413 | a container whose labels bring their own template hash keeps its unit, whatever else changes in its first section, in front of the label or behind it, or in the other sections |
| UnitFiles.NewImageIsNotDeployed | internal/quadlet/pod.go:547-558 | so a new image is not deployed |
| UnitFiles.SecondDeployIsNoOp | internal/server/handler.go:305-316 | for all files and directories, a second deploy changes no file and removes none; it writes exactly the files that carry no hash |
| UnitOwnership.DeployRemoves | internal/server/handler.go:429-487 | of the files that are not rendered a deploy removes exactly those with all three lines: the managed-by label, this namespace and this pod name; the others stay as they are |
| UnitOwnership.OtherPodsUnitStays | internal/server/handler.go:429-487 | a unit whose lines name another namespace or another pod survives the deploy |
| UnitOwnership.HashLineIsWritten | internal/quadlet/generator.go:32-40 | a rendered unit has the line `Label=q8s.io/template-hash=` with the hash of its source |
| UnitOwnership.LinesAreWhole | internal/server/handler.go:478-487 | a line counts only as a whole, between newlines or the ends of the text |
| UnitOwnership.UnitsStayApart | internal/server/handler.go:305-316 | over any run of deploys for other pods the unit of a pod stays as it is |
| PodReconcile.Reconciler.Reconcile | cmd/q8s/main.go:701-814 | the import loop and the pruning loop, over pods in any order, perform the defined pass |
| PodReconcile.PassReachesTarget | cmd/q8s/main.go:701-814 | afterwards a pod is there exactly when a validly labelled container of an existing namespace calls for it, or it was there and is standalone, live or has a unit; survivors are unchanged |
| PodReconcile.SecondPassIsNoOp | cmd/q8s/main.go:701-814 | a second pass over the same containers and units changes nothing, not even the version counter |
| PodImports.ImportAdds | cmd/q8s/main.go:716-790 | one container adds its Deployment and its pod, each if missing, and as many versions, and changes nothing else |
| PodImports.PassImports | cmd/q8s/main.go:759-790 | a pod that a pass adds has the image, the phase and the container name of the first container for it, and is a Deployment's if and only if that container names one |
| PodImports.PassRestores | cmd/q8s/main.go:735-757 | a restored Deployment has the image of the first container that names it; those there stay as they are |
| PodImports.PassPrunes | cmd/q8s/main.go:793-812 | a pod that was there stays, unchanged, if and only if it is standalone or has a validly labelled container or a unit `<namespace>-<name>.service` |
| PodImports.ImportedThenGone | cmd/q8s/main.go:701-814 | an imported pod survives a pass without containers and units if and only if its container named no Deployment |
| PodImports.NamesAreNameLike | cmd/q8s/main.go:819-834 | the names accepted are those of 1 to 253 lower-case letters, digits and dashes, with no dash at either end |
| Swagger.CollectRefs | hack/gen-openapi/main.go:243-267 | collects exactly the nested `$ref` strings, whatever the map order |
| SwaggerReferences.RefsAreNested | hack/gen-openapi/main.go:243-267 | a schema refers to exactly the `$ref` strings that some path of members and list elements leads to, not through a `$ref` member |
| SwaggerReferences.LinksAreReferences | hack/gen-openapi/main.go:186-203 | a definition leads to another if and only if it refers to `#/definitions/` and its name |
| SwaggerReferences.ResolvedAreReferences | hack/gen-openapi/main.go:186-203 | and the trimmer fails for exactly the references that name no definition in this way |
| SwaggerReferences.SeedsAreWanted | hack/gen-openapi/main.go:156-177 | the closure starts from the extra definitions and those with an entry of a wanted group, version and kind |
| Swagger.TrimSwagger | hack/gen-openapi/main.go:145-217 | fails exactly for no definitions, a missing extra definition, or a reachable definition with a dangling reference; otherwise selects exactly what is reachable from the seeds |
| Swagger.FollowRefs | hack/gen-openapi/main.go:179-205 | the worklist loop terminates, for cyclic schemas too, with exactly the reachable definitions |
| Swagger.SelectionIsLeast | hack/gen-openapi/main.go:156-205 | the selection contains the seeds, is closed under references, and lies in every set that does |
| Swagger.SelectionIsDetermined | hack/gen-openapi/main.go:156-205 | two selections for the same document and seeds are equal, whatever the map order |
| WebSocket.ReadsWhatItWrites | internal/server/exec.go:48-70 | a written frame reads back with its opcode, payload and the bytes behind it if and only if the payload is within the limit, and is refused otherwise |
| WebSocket.ReadsMasked | internal/server/exec.go:93-137 | a masked client frame reads back unmasked under the same condition |
| WebSocket.StreamRoundTrip | internal/server/exec.go:48-137 | concatenated frames read back as the same list of messages |
| WebSocket.FramesAreShortest | internal/server/exec.go:53-67 | no byte sequence that reads as one frame with this payload is shorter than the written one (RFC 6455 section 5.2) |
| WebSocket.HugeLengthPanics | internal/server/exec.go:114-127 | reading panics if and only if the header is that of a 64-bit length with its top bit set, masked or not, and everything in front of the payload has arrived |
| WebSocket.Connection.WriteFrame | internal/server/exec.go:48-70 | appends the header and the payload of one frame to the output |
| WebSocket.Connection.Receive | internal/server/exec.go:93-137 | consumes one frame from the input, or ends with the same error the definition gives, having consumed what it had read by then |
| WebSocket.Unmask | internal/server/exec.go:131-135 | in place, byte i is combined with key byte i mod 4 (RFC 6455 section 5.3) |
| WebSocketBytes.FrameStarts | internal/server/exec.go:52-52 | the first byte has the final bit, no reserved bits and the opcode |
| WebSocketBytes.FrameBytes | internal/server/exec.go:53-69 | the rest is the shortest length form, unmasked, most significant byte first, and the payload |
| WebSocketBytes.LimitIsOneMebibyte | internal/server/exec.go:87-90 | a frame is read back up to 1024 * 1024 bytes of payload and refused beyond |
| WebSocketBytes.MaskedBytesRead | internal/server/exec.go:93-137 | a short masked frame, byte by byte: each payload byte combined with the key byte whose turn it is |
| UnitLine.LineReadsBack | internal/quadlet/env.go:30-84 | a line is refused exactly for an unescapable control character, and every other one parses back to the name and value it was rendered from, in both modes |
| UnitLine.OneLine | internal/quadlet/env.go:30-84 | a rendered line has exactly one newline, at its end |
| UnitLine.BareExactly | internal/quadlet/env.go:39-47 | a value stands unquoted if and only if nothing in it means something to the unit-file parser |
| UnitLine.UnitAssignmentLine | internal/quadlet/env.go:30-84 | the scanning and building loops render the defined line |

## Left out

- CronField.Expand: integers are unbounded, so the wrap-around of `v + step` for steps near 2^63 is not modelled.
- CronTranslation.TranslationTheorem: weekday numerals mean what the source's comment says; 29 February counts as a date.
- PatchRun.ApplyJSONPatch: requires that no operation, even one that fails, writes below a place of a container copied before it, and that a copy to below itself comes last; the values a patch adds are taken to be objects of their own, as decoding leaves them.
- PatchSharing.CopyThenChange: moves and copies into the copied container, a second write into it, and copies of a container over one that holds it or onto the end of itself are not followed.
- MergeInPlace.MergeOne: a nested object is changed in a fresh cell and put back, so aliasing between the base document and other holders of its nested maps is not captured.
- Store.Store.Create: defaulting of labels and timestamps, Service cluster addresses, and the copies some kinds make are not modelled; all kinds share one method.
- Store.Store.SetStatus: the container statuses that are filled in without a new version are a separate operation (`FillStatus`).
- Store.Store.Update: the kinds differ only in the Deployment's generation here; fields a kind carries over besides the UID are not modelled.
- Watch.SessionFollowsStore: the listing of events is not modelled; container statuses filled in without a new version, and restarts, are excluded from the histories; a change between two rounds waits for the next notification; how a Deployment's listed status is derived is a parameter.
- WatchExactness.WatchesExactly: the same; the server's way of deriving the status is one value of that parameter (`WatchExactness.LiveStatus`), and a request's selector is a predicate on an object's template.
- StoreHistory.VersionIdentifies: the same exclusion.
- SaveProtocol.QuiescentFileIsCurrent: the crash of the process is not a step; a restart from an older file starts a new history.
- NodePorts.RunsAreSafe: requests run one after another; the PATCH path, which stores before it checks, is excluded, and two unset ports of one Service get the same number.
- UnitFiles.DeployConverges: reads and writes succeed, and SHA-256 is a function parameter.
- PodReconcile.PassReachesTarget: pods' health-derived readiness, unit states, the name of the owning Deployment and the Deployment fields other than the image are not modelled.
- Swagger.TrimSwagger: parsing the document, writing the trimmed one, and the text of the errors are not modelled.
- WebSocket.Connection.WriteFrame: write errors are ignored as the program ignores them.
- UnitLine.LineReadsBack: names are of the characters that environment variable names and annotation keys may have; values are sequences of characters, so invalid UTF-8 is not modelled, nor is systemd's refusal of an escaped NUL.
- HTTP routing, status encoding, tables, discovery, TLS and certificates: plumbing around the modelled parts.
- Podman, systemd and D-Bus calls, restarts of units, and the events feed: inputs or effects outside the model.
- YAML and JSON text: the models start from decoded values; error texts are not modelled.
- Timing, debounce, backoff, metrics and log streaming: no state the properties speak of.
