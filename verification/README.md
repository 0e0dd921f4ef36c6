# Overlay API server: a verified model

The overlay API server keeps the custom resources of many tenants as envelope records
(`KubernetesCrd`) in one reserved namespace of a Kubernetes cluster. A tenant is a pair
(cluster, namespace) that is read out of the service-account name of the caller. The server
follows the custom resource definitions of the cluster: it serves every definition under
`/apis/overlay/v1alpha1/`, lists it in discovery, and forgets it when the definition goes.

The project models three groups of behaviour and proves what holds over every input, every run
and every interleaving.

**Tenant store.** `Strings`, `Usernames`, `Json`, `Manifests`, `TenantStore`, `TenantRuns`,
`RestStorage`, `StaleCache`, `WorkerPool`, `CollectionDelete`, `SharedKind`, `UpdatedRecords`,
`SharedStore`. The store is a map from record names to records with a version counter. `TenantStore`
says what each operation does as a function; `RestStorage` holds the operations as methods of a class,
with the label maps filled in place and the loops of the source, proved against those functions.
`TenantRuns` proves the record invariant and tenant non-interference for sequences of operations. `StaleCache` lets any number of
clients interleave over a lister cache that may lag by any amount, and proves the result
equivalent to a sequence of atomic operations. `WorkerPool` is the step machine of
`DeleteCollection` (distributor, workers, two bounded channels, wait group, caller), and
`CollectionDelete` composes everything into the final content of the store. `SharedKind` is the input
on which listing by kind and deleting by plural part ways, `UpdatedRecords` what an update can leave
behind. `SharedStore` interleaves the pool with the clients of `StaleCache`.

**Registration of definitions.** `Priority`, `Discovery`, `Routes`, `Registration`,
`RegisteredDefinitions`, `RouteServing`, `ReaderSnapshots`. The classes keep the state of the source: two maps, the discovery
slice, the route table, the priority map. `Registration` proves all five in agreement with a small ledger after every
well-formed history of informer events; `RouteServing` says which plurals keep their routes in every
history, `RegisteredDefinitions` what is stored and listed in the words of the definitions delivered;
`ReaderSnapshots` interleaves the informer, step by locked step, with request handlers.

**Two algorithms.** `KubeVersions`, `Normalization` and `VersionOrder` (version order, stable sort, first
entry of a name wins, and what that means for version strings as written) and `Watch` (the forwarder of watch events over a bounded channel).

## What the proofs found

- Two tenants' record names can coincide exactly when one tenant's `cluster.namespace.` is a string
  prefix of the other's (`Manifests.TenantsCollideExactly`); a dotted cluster id makes that
  happen (`Manifests.DottedClusterCollides`). With dot-free parts names are injective.
- `Update` stores whatever namespace and name the changed object carries. The record invariant
  survives exactly when they are the request's (`TenantRuns.UpdateKeepsExactly`), and another
  tenant sees the update exactly when the object names its namespace (`TenantRuns.UpdateReaches`).
  Isolation of tenants does not depend on the name: it holds in every run whose updates store no object
  in another namespace, renaming included (`TenantRuns.NonInterference`). Changes that carry name and
  namespace over from what they read, such as setting a label, satisfy this wherever they are applied
  (`TenantRuns.CarryingOverSuffices`, `TenantRuns.AddLabelCarriesOver`).
- The `resourceVersion` a client submits plays no part: it is trimmed before the write
  (`StaleCache.SubmittedVersionIgnored`). A write is refused exactly when the record the server read is
  no longer the one in the store (`StaleCache.RefusedExactly`). So no update is lost relative to what
  the server read; a client that sends an old object is not told so.
- `Update` copies the new labels over the record's old ones and removes none, so a label dropped from an
  object goes on selecting it (`TenantStore.UpdateLabelsExactly`, `TenantStore.DroppedLabelStillSelects`):
  create with a label, update without it, and listing by the label returns the object, which no longer
  has it (`UpdatedRecords.ListedByDroppedLabel`).
- `DeleteCollection` selects by kind and deletes by plural. What is gone afterwards is the selection
  exactly when all selected records lie under its own plural
  (`CollectionDelete.DeletesExactlyTheSelection`). With the plurals foos and bars of kind Foo, two creates
  are enough for a call that returns no error, leaves the record it listed and deletes one it did not list
  (`SharedKind.FoosAndBars`). For any store, renamed objects included, what is gone is what the listed
  objects' names lead to, and that is the selection exactly when it covers the selection
  (`CollectionDelete.DeletesExactlyTheNamed`); an object renamed by an update is listed and survives a call
  that returns no error (`UpdatedRecords.RenamedSurvives`).
- The distributor goroutine is not waited for. Some schedule leaves it blocked for good on a full channel
  exactly when there are more items than three times the number of workers
  (`WorkerPool.DistributorStrandedExactly`); with the limit of two that every storage is given, from seven
  items on (`WorkerPool.DefaultStrandedExactly`). The caller itself always returns.
- `removeStorage` matches routes by string prefix. Within a scope it takes the item routes of another
  plural exactly when the removed plural is a prefix of it; a cluster-scoped plural that is a prefix of
  "namespaces" takes the item routes of every namespaced plural, as "names" does to "foos"; and a
  cluster-scoped plural takes the all-namespaces list of the plurals it is a prefix of
  (`Routes.SwallowsExactly`, `Routes.SwallowsListExactly`, `Routes.NamesSwallowsFoos`). Over all histories
  every item route of every registered definition is in the table, once, exactly when no plural takes item
  routes of another (`RouteServing.ItemsServedExactly`); with the all-namespaces lists, every route is there
  exactly when no plural takes any route of another (`RouteServing.AllServedExactly`).
- The list over all namespaces of a namespaced plural is never removed (`Routes.AddThenRemoveExactly`): the
  table ends up with one more for every time the plural was registered (`Registration.ListRoutesAccumulate`).
  When the plural comes back cluster-scoped, the old list is the same path and method as its own
  (`RouteServing.RescopedTwice`).
- Cancelling a watch does not end `Run` when the consumer is more events behind than the result channel
  holds (`Watch.CancelFreesRunExactly`). That state is reached for every size of the channel, and without
  the consumer nothing leaves it; every `Stop` waits too (`Watch.StuckIsReachable`,
  `Watch.StrandedWithoutConsumer`).
- The comparator of the normalisation is a total order on (version, name) exactly when no two versions tie
  (`Normalization.LessTotalExactly`), and the output is independent of the iteration order of the map,
  over all groups with given versions, under exactly the same condition
  (`Normalization.OrderIndependentExactly`). `v1` and `v01` tie.
- Reading an object and writing it back is invisible exactly when the stored metadata has no
  `managedFields` (`Manifests.ReadWriteBackExactly`).
- The expectations at `pkg/apiserver/overlay/rest_test.go:44` leave the cluster id out of the record
  name; the model follows the code at `pkg/apiserver/overlay/rest.go:560`, which puts it in.

## Model

| member | source | states |
|---|---|---|
| Usernames.ParseExactly | pkg/apiserver/overlay/rest.go:90-114 | The parser answers (cluster, namespace) iff the username is prefix, delimiter, cluster, one character, the last occurrence of the delimiter, namespace |
| Usernames.ParseUndoesPrint | manifests/business-authorization/create-business.sh:153 | Parsing a printed account name gives back its cluster and namespace iff the namespace does not contain the delimiter, whatever the cluster contains |
| Usernames.NoOverlap | pkg/apiserver/overlay/rest.go:102-104 | Two occurrences of a delimiter made of a dash-free random part never overlap |
| Usernames.OutOfRangeExactly | pkg/apiserver/overlay/rest.go:101-113 | The slice expressions leave the string iff the name is cut short, or its last delimiter starts within six characters of the first |
| TenantStore.OneTenantPerUser | pkg/apiserver/overlay/rest.go:531-552 | A username is authorized for at most one (cluster, namespace) |
| TenantStore.GetUserExactly | pkg/apiserver/overlay/rest.go:531-552 | A caller acts in a cluster iff its username names that cluster and the request's non-empty namespace; no username is unauthorized, any other mismatch forbidden |
| TenantStore.ResourceParts | pkg/apiserver/overlay/rest.go:679-687 | The part before the first slash is the resource; there is a subresource iff the part after it is not empty |
| TenantStore.PrintedUserActsExactly | pkg/apiserver/overlay/rest.go:531-552 | The account printed for a tenant may act in a namespace iff it is that tenant's own and not empty |
| Manifests.KeyInjective | pkg/apiserver/overlay/rest.go:554-561 | With dot-free resource, cluster and namespace and any object name, equal record names come from equal parts |
| Manifests.TenantsCollideExactly | pkg/apiserver/overlay/rest.go:554-561 | Without that restriction, two tenants can share a record name iff the dotted prefix of one starts the other's |
| Manifests.DottedClusterCollides | pkg/apiserver/overlay/rest.go:554-561 | Two concrete tenants, one with a dotted cluster id, that share a record name |
| Manifests.TransformManifest | pkg/apiserver/overlay/rest.go:689-706 | The sequence of metadata setters equals one patch of the metadata by the envelope's fields, and fails iff the manifest does not decode |
| Manifests.TrimResult | pkg/apiserver/overlay/rest.go:708-714 | The three removals take exactly the three fields out of an existing metadata object |
| Manifests.EnvelopeSeen | pkg/apiserver/overlay/rest.go:694-699 | Each envelope field is seen under its own name with its own value, and is absent when the envelope has none |
| Manifests.FinalizersSeen | pkg/apiserver/overlay/rest.go:700 | The finalizers are seen one by one, or not at all |
| Manifests.RestSeen | pkg/apiserver/overlay/rest.go:689-706 | Every other field is seen as stored; only annotations that are no string map disappear |
| Manifests.TrimExactly | pkg/apiserver/overlay/rest.go:708-714 | Exactly creationTimestamp, managedFields and resourceVersion are taken out of the metadata |
| Json.DecodeExactly | pkg/apiserver/overlay/rest.go:689-693 | What decodes is an object with a non-empty kind, and it decodes to itself |
| Manifests.ReadWriteBackExactly | pkg/apiserver/overlay/rest.go:689-714 | Storing a trimmed read changes nothing a reader sees, over every JSON tree, iff the stored metadata has no managedFields |
| Manifests.ReadWriteBackDecodes | pkg/apiserver/overlay/rest.go:689-714 | Reading and storing back never makes a manifest undecodable or decodable |
| Manifests.TransformKeepsIdentity | pkg/apiserver/overlay/rest.go:694-703 | Name, namespace and labels as read are those stored |
| Manifests.TrimKeepsIdentity | pkg/apiserver/overlay/rest.go:708-714 | Trimming keeps name, namespace and labels, and none of the trimmed fields remains |
| TenantStore.SystemLabelsWin | pkg/apiserver/overlay/rest.go:141-149 | Whatever labels an object carries or a record had, the stored group, version, kind, name, namespace and cluster labels are the server's |
| TenantStore.OtherLabelsKept | pkg/apiserver/overlay/rest.go:232-247 | Every other label is the object's or, on update, else the record's; a scale storage leaves the kind label to those |
| TenantStore.DryRunBodyMeaning | pkg/apiserver/overlay/rest.go:583-597 | The dry run is asked for the object in the reserved namespace, with the created-by label, and otherwise as it came |
| TenantStore.DryRunExactly | pkg/apiserver/overlay/rest.go:563-626 | Which error comes first; otherwise what is stored is the server's answer, with name and labels, in the caller's namespace |
| TenantStore.DnsLabelShape | pkg/apiserver/overlay/rest.go:571-581 | Accepted namespaces are letters and digits with dashes between, at most 63, and every one of them can be selected on |
| TenantStore.RequirementLaws | pkg/apiserver/overlay/rest.go:628-677 | Equals fixes the value, In is some Equals, Exists any; the negative operators are their complements, missing labels included |
| TenantStore.SelectedExactly | pkg/apiserver/overlay/rest.go:628-677 | A record is selected iff it is the tenant's, of the kind, matches the user's label requirements, and its name is each Equals term's value and no NotEquals term's |
| TenantStore.UpdateRefused | pkg/apiserver/overlay/rest.go:187-231 | Why an update is refused before it writes, in order: subresource, caller, missing in the cache, undecodable, the change itself |
| TenantStore.DeleteExactly | pkg/apiserver/overlay/rest.go:262-276 | Delete answers NotFound iff there is no record of the caller's of that name; otherwise it takes that record alone |
| TenantStore.GetExactly | pkg/apiserver/overlay/rest.go:161-182 | Get answers NotFound iff its source has no record of the caller's of that name |
| TenantStore.UpdateLabelsExactly | pkg/apiserver/overlay/rest.go:232-247 | An updated record has the labels its object would be created with iff the object still carries every label the record had |
| TenantStore.DroppedLabelStillSelects | pkg/apiserver/overlay/rest.go:237-239 | A label the object has dropped goes on matching selectors exactly as before the update |
| TenantStore.ListSeesOnlyOwn | pkg/apiserver/overlay/rest.go:656-676 | A list with any selectors depends only on the records owned by the caller's tenant |
| TenantRuns.KeyLeadsToOwner | pkg/apiserver/overlay/rest.go:554-561 | A record found under the name a tenant computes is that tenant's record of that name |
| TenantRuns.KeyLeadsToTenant | pkg/apiserver/overlay/rest.go:554-561 | Even when objects were renamed, a record found under a name a tenant computes belongs to that tenant |
| TenantRuns.CreatedNamespace | pkg/apiserver/overlay/rest.go:563-626 | What the dry run returns for storage is back in the caller's namespace and trimmed, unless its metadata cannot be set |
| TenantRuns.CreateKeeps | pkg/apiserver/overlay/rest.go:117-158 | Create keeps the record invariant for every server answer and every object |
| TenantRuns.CreateTouches | pkg/apiserver/overlay/rest.go:117-158 | A create that changes the store adds one record under a name that was free, with a new version, and answers with that record |
| TenantRuns.CreateExactly | pkg/apiserver/overlay/rest.go:117-158 | Create stores a record iff the name is free; a taken name is answered AlreadyExists, and failures before change nothing |
| TenantRuns.CreateAnswer | pkg/apiserver/overlay/rest.go:150-157 | The creator sees the version just issued, generation 1, the new uid and creation time, and the object as stored |
| TenantRuns.UpdateTouches | pkg/apiserver/overlay/rest.go:187-258 | An accepted update replaces one existing record, under a new version, and nothing else, and answers with it |
| TenantRuns.UpdateAnswer | pkg/apiserver/overlay/rest.go:251-257 | The updater sees the version just issued, the uid and creation time the record has had, and a generation moved on iff the object changed |
| TenantRuns.UpdateKeepsExactly | pkg/apiserver/overlay/rest.go:229-251 | An accepted update keeps the record invariant iff it leaves the object the requested name and namespace |
| TenantRuns.RecordInvariant | pkg/apiserver/overlay/rest.go:124-157 | After any run whose updates store objects under the requested name and namespace, every record is stored under the name made of its own labels, its object has that name and namespace, and no trimmed field is stored |
| TenantRuns.KeptIsHoused | pkg/apiserver/overlay/rest.go:124-157 | The record invariant implies the weaker one that isolation needs: every record lies under a name of its tenant |
| TenantRuns.UpdateHousesExactly | pkg/apiserver/overlay/rest.go:229-251 | An accepted update keeps that weaker invariant iff the object stays in the request's namespace, whatever its name becomes |
| TenantRuns.HousedAlways | pkg/apiserver/overlay/rest.go:117-276 | The weaker invariant holds after every run whose updates store no object in another namespace |
| TenantRuns.StayingPutSuffices | pkg/apiserver/overlay/rest.go:214-230 | Runs of changes that keep an object of the namespace in it meet that condition throughout, renaming or not |
| TenantRuns.CarryingOverSuffices | pkg/apiserver/overlay/rest.go:214-230 | Runs of changes that carry name and namespace over from what they read meet both conditions throughout |
| TenantRuns.AddLabelCarriesOver | pkg/apiserver/overlay/rest.go:214-230 | Setting a label on what was read is such a change |
| TenantRuns.KindInvariant | pkg/apiserver/overlay/rest.go:141-149 | After any run of handlers whose kinds determine their plurals, a record's kind label determines the plural it is stored under |
| TenantRuns.UpdateReaches | pkg/apiserver/overlay/rest.go:229-251 | An accepted update changes another tenant's records iff the stored object names that tenant's namespace |
| TenantRuns.MovedObjectReaches | pkg/apiserver/overlay/rest.go:245-251 | A concrete change, renaming only the namespace, is accepted and does change another tenant's records |
| TenantRuns.NonInterference | pkg/apiserver/overlay/rest.go:531-561 | No sequence of operations of one tenant changes a record of another, whatever labels the objects carry and whatever names updates give them, as long as no update stores its object in another namespace |
| TenantRuns.OwnRecordsDecideReads | pkg/apiserver/overlay/rest.go:161-182 | What a tenant gets and lists depends only on its own records |
| TenantRuns.ReadsUnchanged | pkg/apiserver/overlay/rest.go:407-448 | No Get and no list of another tenant changes over such a sequence, renaming updates included |
| TenantRuns.GetAfterCreate | pkg/apiserver/overlay/rest.go:117-182 | Once the cache has the new record, Get by name returns exactly what Create returned |
| RestStorage.REST.Create | pkg/apiserver/overlay/rest.go:117-158 | New store and answer of the imperative Create are those of the specification whose invariants TenantRuns proves |
| RestStorage.REST.StampCreated | pkg/apiserver/overlay/rest.go:141-149 | Six in-place assignments give the object's labels overridden by the system's |
| RestStorage.REST.StampUpdated | pkg/apiserver/overlay/rest.go:232-247 | The copied old labels are overridden by the object's and those by the system's, leaving the kind alone for Scale |
| RestStorage.REST.CopyLabels | pkg/apiserver/overlay/rest.go:237-239 | Ranging over a map in any order gives the union in which the object's labels win |
| RestStorage.REST.DryRunRequest | pkg/apiserver/overlay/rest.go:563-626 | Error branches, the namespace swap around the dry run, the created-by label and the trim |
| RestStorage.REST.Get | pkg/apiserver/overlay/rest.go:161-182 | Reads the cache or the live store under the caller's own record name |
| RestStorage.REST.Update | pkg/apiserver/overlay/rest.go:187-258 | Reads through the possibly stale cache, writes conditionally on the version read |
| RestStorage.REST.Delete | pkg/apiserver/overlay/rest.go:262-276 | Removes the caller's record of that name or answers that it is missing |
| RestStorage.REST.ConvertFieldTerms | pkg/apiserver/overlay/rest.go:638-654 | Succeeds iff every term selects metadata.name with a usable operator and value, giving one requirement a term, in order |
| RestStorage.REST.ConvertListOptions | pkg/apiserver/overlay/rest.go:628-677 | Fails exactly on unusable field terms or label values, otherwise the user's selector with the three owner requirements added |
| RestStorage.REST.List | pkg/apiserver/overlay/rest.go:407-448 | Succeeds iff the caller is authorized, the options convert and every selected record decodes; then every selected record exactly once, as transformed for the client |
| RestStorage.ManifestServer.List | pkg/apiserver/overlay/rest.go:414-424 | Every selected record exactly once, in an order the server chooses |
| StaleCache.AcceptedReadIsCurrent | pkg/apiserver/overlay/rest.go:205-254 | An accepted write found in the store the very record that was read, however old the cache |
| StaleCache.InvStep | pkg/apiserver/overlay/rest.go:205-254 | Every step of every client keeps that one version of a record is one value |
| StaleCache.StepIsAtomic | pkg/apiserver/overlay/rest.go:205-254 | A step over stale reads is no step, or one atomic operation on the current store |
| StaleCache.StaleRunsAreSerial | pkg/apiserver/overlay/rest.go:205-254 | For any interleaving and any cache lag the final store is that of the committed operations run one after another |
| StaleCache.NoLostUpdate | pkg/apiserver/overlay/rest.go:229-254 | A committed update is computed from the manifest and labels current just before it, raises the version and touches one record |
| StaleCache.SubmittedVersionIgnored | pkg/apiserver/overlay/rest.go:229-251 | The resourceVersion inside the submitted object influences neither store nor answer |
| StaleCache.ConflictExactly | pkg/apiserver/overlay/rest.go:205-254 | A write that reaches a record conflicts, and then changes nothing, iff the cache showed another version |
| StaleCache.RefusedExactly | pkg/apiserver/overlay/rest.go:205-254 | In every reachable state a pending write is refused iff the record it read is no longer the stored one |
| StaleCache.StaleRunsKeepTenantsApart | pkg/apiserver/overlay/rest.go:187-258 | Tenant isolation for every interleaving over stale caches, renaming updates included; the record invariant when updates keep names too |
| WorkerPool.InvAlways | pkg/apiserver/overlay/rest.go:308-363 | The pool's invariant in every reachable state, for any item count and worker limit |
| WorkerPool.EachIndexOnce | pkg/apiserver/overlay/rest.go:315-355 | In every reachable state each index is exactly once unsent, buffered, held or answered |
| WorkerPool.WorkersExactly | pkg/apiserver/overlay/rest.go:303-314 | As many workers as items and limit allow, and at least one |
| WorkerPool.QueueInOrder | pkg/apiserver/overlay/rest.go:316-326 | In every reachable state the channel holds the items sent last, in order |
| WorkerPool.ErrsNeverBlocks | pkg/apiserver/overlay/rest.go:317-351 | A worker with an error always finds room in the error channel |
| WorkerPool.NeverStuck | pkg/apiserver/overlay/rest.go:319-362 | Until the caller returns some step is enabled, in every reachable state |
| WorkerPool.SomeStep | pkg/apiserver/overlay/rest.go:319-362 | The same from the pool's invariant alone, whatever other writers did to the records |
| WorkerPool.MeasureDrops | pkg/apiserver/overlay/rest.go:319-362 | Every step lowers a non-negative measure |
| WorkerPool.Terminates | pkg/apiserver/overlay/rest.go:319-362 | No execution has more than 4n + 2W + 2 steps |
| WorkerPool.ErrorExactly | pkg/apiserver/overlay/rest.go:348-362 | The caller gets an error iff some delete failed with something other than NotFound, and it is one of those errors |
| WorkerPool.NilMeansAllAttempted | pkg/apiserver/overlay/rest.go:319-362 | No error means every index was answered exactly once and the distributor closed the channel |
| WorkerPool.OnlyDistributorLeft | pkg/apiserver/overlay/rest.go:319-356 | After the caller returned only the distributor can still move |
| WorkerPool.SentIsAccountedFor | pkg/apiserver/overlay/rest.go:316-353 | In every reachable state the items sent are those buffered, held and answered |
| WorkerPool.StrandedNeedsItems | pkg/apiserver/overlay/rest.go:316-351 | A distributor blocked for good after the return has more items than three times the workers |
| WorkerPool.DistributorStrandedExactly | pkg/apiserver/overlay/rest.go:308-362 | Some schedule leaves the distributor blocked for good iff there are more than three items a worker, for every limit |
| WorkerPool.DefaultStrandedExactly | pkg/apiserver/overlay/rest.go:56-57 | With the default limit, iff at least seven items were listed |
| WorkerPool.StrandedIsReachable | pkg/apiserver/overlay/rest.go:316-351 | With more than three items a worker an execution reaches that state, and the caller gets any error the deletes may fail with |
| CollectionDelete.TracksAlways | pkg/apiserver/overlay/rest.go:338-353 | In every reachable state only items' records are missing, and no record was altered |
| CollectionDelete.NilRemovesTargets | pkg/apiserver/overlay/rest.go:338-362 | Without an error, under every interleaving, exactly the items' record names are gone |
| CollectionDelete.ItemKey | pkg/apiserver/overlay/rest.go:291-348 | The name under which a listed object is deleted, read off the labels of its record |
| CollectionDelete.SelectedByObjectName | pkg/apiserver/overlay/rest.go:638-654 | Under the record invariant metadata.name=x and metadata.name!=x split what the tenant lists by the objects' own names |
| CollectionDelete.ListedByName | pkg/apiserver/overlay/rest.go:407-448 | A list by metadata.name=x returns the object named x, if the tenant has one, and nothing else |
| CollectionDelete.TargetsAreSelection | pkg/apiserver/overlay/rest.go:291-348 | The deleted names are the selected ones when the selection lies under the handler's plural, and always lie under that plural |
| CollectionDelete.DeletesExactlyTheSelection | pkg/apiserver/overlay/rest.go:284-363 | No error and no other writer: the final store is the initial one minus the listed records iff the selection lies under the handler's plural |
| CollectionDelete.DeletesExactlyTheNamed | pkg/apiserver/overlay/rest.go:284-363 | The same for every store, renamed objects included: gone is what the listed objects' names lead to, which is the selection iff every selected record lies under such a name |
| CollectionDelete.KindsKeepSelectionUnder | pkg/apiserver/overlay/rest.go:656-661 | When kinds determine plurals the selection always lies under the handler's plural |
| CollectionDelete.CollectionDeleteAfterAnyRun | pkg/apiserver/overlay/rest.go:284-363 | From an empty store, any run and then a DeleteCollection without error: the final store is the one before minus what List selected |
| CollectionDelete.CollectionDeleteIsolated | pkg/apiserver/overlay/rest.go:284-363 | With or without errors, in every reachable state no other tenant's record is missing and the record invariant holds |
| CollectionDelete.MixedRunsIsolated | pkg/apiserver/overlay/rest.go:117-363 | Any mixture of one tenant's operations and collection deletes, stopped anywhere and renaming objects at will, leaves every other tenant's records as they were |
| CollectionDelete.MixedRunsUnseen | pkg/apiserver/overlay/rest.go:117-448 | And no Get or List of another tenant returns anything different |
| SharedKind.ListsOneDeletesOther | pkg/apiserver/overlay/rest.go:291-362 | For any two plurals of one kind in different groups: after two creates a call selecting the second group returns no error, leaves the listed record and deletes the other |
| SharedKind.FoosAndBars | pkg/apiserver/overlay/rest.go:291-362 | The same for concrete plurals, object and service account |
| UpdatedRecords.ListedByDroppedLabel | pkg/apiserver/overlay/rest.go:232-251 | After a create with a label and an update without it, listing by the label selects the object, whose view has no labels |
| UpdatedRecords.RenamedSurvives | pkg/apiserver/overlay/rest.go:284-363 | After a create and a renaming update, a DeleteCollection of everything lists the object, returns no error and leaves it |
| UpdatedRecords.LabelledAndRenamed | pkg/apiserver/overlay/rest.go:187-363 | Both for a concrete object, storage and service account |
| SharedStore.WorkerIsDelete | pkg/apiserver/overlay/rest.go:338-353 | A pool step that removes a record is the atomic Delete of the listed object's name; other pool steps leave the store alone |
| SharedStore.EnabledSuffices | pkg/apiserver/overlay/rest.go:338-353 | After every enabled move pool and clients still see one store |
| SharedStore.SharedRunIsStaleRun | pkg/apiserver/overlay/rest.go:187-363 | Every interleaving of a collection delete with clients over stale caches is, on the store, such a run of clients |
| SharedStore.PoolInvAmongOthers | pkg/apiserver/overlay/rest.go:308-363 | The pool's invariant holds whatever other clients write meanwhile |
| SharedStore.PoolAmongOthers | pkg/apiserver/overlay/rest.go:308-363 | Among other writers too the pool moves until it returns, reports one of its failures iff there was one, and without an error answered every item once |
| Priority.ResourcePriorities.CanBeAddedToStorage | pkg/apiserver/overlay/priority.go:40-60 | Answer and new map are those of the update whose history Priority describes |
| Priority.ServiceNameParts | pkg/apiserver/overlay/priority.go:62-64 | The APIService looked up is named by the version, a dot and the group |
| Priority.EntryIsLatestMaximum | pkg/apiserver/overlay/priority.go:40-60 | After any calls an entry exists iff some lookup succeeded, and it is the latest call attaining the maximum priority |
| Priority.AcceptedExactly | pkg/apiserver/overlay/priority.go:44-53 | A call is accepted iff its lookup failed or it reaches every earlier successful priority |
| Priority.EntriesNeverDecrease | pkg/apiserver/overlay/priority.go:51-58 | Entries are never removed and their priority never falls |
| Discovery.VersionDiscoveryHandler.UpdateCRDAPIResource | pkg/apiserver/overlay/customresource_handler.go:632-649 | The search with overwrite or append is an update of an ordered map, category added |
| Discovery.VersionDiscoveryHandler.UpdateCRD | pkg/apiserver/overlay/customresource_handler.go:651-694 | The two entries of a definition, the second iff its first stored and served version has scale |
| Discovery.VersionDiscoveryHandler.RemoveCRD | pkg/apiserver/overlay/customresource_handler.go:696-710 | The rebuilt slice is the old one without the plural and the names under it |
| Discovery.VersionDiscoveryHandler.ListAPIResources | pkg/apiserver/overlay/customresource_handler.go:723-725 | Fixed entries first, then the definitions', neither list changed |
| Discovery.UpsertIsMapUpdate | pkg/apiserver/overlay/customresource_handler.go:632-649 | One name's entry changes, no other; the order stays, a new name goes to the end, names stay unique |
| Discovery.WithoutIsMapRemoval | pkg/apiserver/overlay/customresource_handler.go:696-710 | Exactly the plural and the names under it lose their entries; the other names stay in order, and unique |
| Discovery.BelongsToOne | pkg/apiserver/overlay/customresource_handler.go:700-706 | For slash-free plurals an entry of one plural is never removed with another |
| Discovery.SliceRefinesMap | pkg/apiserver/overlay/customresource_handler.go:651-710 | After any changes the slice is, name by name, the map the changes describe, with unique names, and scale entries only beside main ones |
| Routes.WebService.AddRoutes | pkg/apiserver/overlay/customresource_handler.go:356-530 | The routes of a definition are appended in order, status routes iff the version has status |
| Routes.ServedExactly | pkg/apiserver/overlay/customresource_handler.go:356-530 | Which verbs are served on which paths, written out, for both scopes, with and without status |
| Routes.WebService.Collect | pkg/apiserver/overlay/customresource_handler.go:238-248 | Exactly the routes whose path starts with the item path, in table order |
| Routes.WebService.RemoveRoutes | pkg/apiserver/overlay/customresource_handler.go:238-258 | Removing the collected routes one by one leaves exactly the other routes, in order |
| Routes.AddThenRemoveExactly | pkg/apiserver/overlay/customresource_handler.go:238-258 | Add then remove gives the old table plus the all-namespaces list of a namespaced plural, iff no earlier route starts with the item path |
| Routes.SwallowsExactly | pkg/apiserver/overlay/customresource_handler.go:238-248 | For all scopes: removing p takes an item route of q iff p is a prefix of q in the same scope, or p is cluster-scoped, q namespaced and p a prefix of "namespaces" |
| Routes.SwallowsListExactly | pkg/apiserver/overlay/customresource_handler.go:238-248 | Removing p takes the all-namespaces list of q iff p is cluster-scoped and a prefix of q |
| Routes.NamesSwallowsFoos | pkg/apiserver/overlay/customresource_handler.go:238-248 | Removing a cluster-scoped "names" takes every item route of a namespaced "foos" |
| Routes.OthersUntouched | pkg/apiserver/overlay/customresource_handler.go:238-248 | A removal leaves all routes of another definition alone iff neither of the two cases applies |
| Registration.RegisteredIsDiscovered | pkg/apiserver/overlay/customresource_handler.go:269-276 | With distinct version names discovery describes the very version that is registered |
| Registration.CrdHandler.Remove | pkg/apiserver/overlay/customresource_handler.go:225-259 | Discovery, both maps and routes change together as the specification says; priorities stay |
| Registration.CrdHandler.Add | pkg/apiserver/overlay/customresource_handler.go:261-533 | The early returns leave all five structures alone; otherwise all change together |
| Registration.CrdHandler.AddCustomResourceDefinition | pkg/apiserver/overlay/customresource_handler.go:166-178 | The add event, skipping the server's own groups |
| Registration.CrdHandler.UpdateCustomResourceDefinition | pkg/apiserver/overlay/customresource_handler.go:180-201 | The update event: skipped when terminating, unchanged or of an own group, else remove the old and add the new |
| Registration.CrdHandler.DeleteCustomResourceDefinition | pkg/apiserver/overlay/customresource_handler.go:203-223 | The delete event, from an object or a tombstone; anything else changes nothing |
| Registration.CrdHandler.Serve | pkg/apiserver/overlay/customresource_handler.go:582-585 | The two lookups of a request |
| Registration.HandleAgrees | pkg/apiserver/overlay/customresource_handler.go:166-354 | One event on agreeing structures leaves them agreeing with the ledger |
| Registration.RegistrationRefinesLedger | pkg/apiserver/overlay/customresource_handler.go:166-354 | After every well-formed history over distinct slash-free plurals both maps, listing and priorities agree with the ledger; where removals keep apart, so does the whole route table: each plural's item routes, and outside them the routes of the start plus one list route a namespaced registration, in order |
| RouteServing.ItemsServedExactly | pkg/apiserver/overlay/customresource_handler.go:225-259 | For plurals that keep their scope: every item route of every registered definition is in the table exactly once after every history iff no plural swallows another's item routes |
| RouteServing.SwallowedLosesItems | pkg/apiserver/overlay/customresource_handler.go:238-258 | If p swallows q, registering q, registering p and removing p leaves q registered without any of its item routes |
| RouteServing.AllServedExactly | pkg/apiserver/overlay/customresource_handler.go:225-259 | Every route of every registered definition, all-namespaces lists included, is in the table after every history iff no plural takes any route of another |
| RouteServing.DisturbedLosesRoute | pkg/apiserver/overlay/customresource_handler.go:238-258 | If p disturbs q, the same history loses a route of q |
| RouteServing.RescopedTwice | pkg/apiserver/overlay/customresource_handler.go:225-259 | A plural registered namespaced, removed and registered cluster-scoped has its list route in the table twice |
| Registration.ListRoutesAccumulate | pkg/apiserver/overlay/customresource_handler.go:356-530 | The table holds the all-namespaces list of a plural once more for every time it was registered |
| Registration.AgreementOnMaps | pkg/apiserver/overlay/customresource_handler.go:329-354 | Both maps have the keys of the ledger, and each pair names the same kind, resource, group and version |
| Registration.AgreementOnListing | pkg/apiserver/overlay/customresource_handler.go:651-694 | A plural is listed iff it is stored, and its scale iff the stored version has scale |
| Registration.AgreementRemovable | pkg/apiserver/overlay/customresource_handler.go:253-258 | In agreeing states a removal meets each matching route at most once, as the library's removal needs |
| RegisteredDefinitions.SkippedExactly | pkg/apiserver/overlay/customresource_handler.go:166-171 | The groups skipped are those that end in the server's own suffix |
| RegisteredDefinitions.RegistrableExactly | pkg/apiserver/overlay/customresource_handler.go:261-276 | A definition is registered with its first stored version, iff that is served and the definition is not terminating |
| RegisteredDefinitions.AddedExactly | pkg/apiserver/overlay/customresource_handler.go:278-283 | An add goes ahead unless a larger priority than that of version.group stands for the plural; a known priority is noted |
| RegisteredDefinitions.EventEffect | pkg/apiserver/overlay/customresource_handler.go:166-223 | Which events change nothing, when a plural is stored after an event, and that no other plural is touched |
| RegisteredDefinitions.LiveIsDelivered | pkg/apiserver/overlay/customresource_handler.go:166-223 | The registered definition is the one delivered by the last event that was acted upon |
| RegisteredDefinitions.StoredAsDefined | pkg/apiserver/overlay/customresource_handler.go:294-354 | After every well-formed history storage and request scope of a plural say of names, kind, group, version, namespacing, subresources and self links what that definition says |
| RegisteredDefinitions.CreateThroughRegistered | pkg/apiserver/overlay/customresource_handler.go:304-310 | A create through the storage of a namespaced definition stores the object in the caller's namespace, under the definition's kind |
| RegisteredDefinitions.ListedAsDefined | pkg/apiserver/overlay/customresource_handler.go:651-694 | After every well-formed history each discovery entry, and the scale entry iff the registered version has scale, says field by field what the definition says |
| ReaderSnapshots.LockInvStep | pkg/apiserver/overlay/customresource_handler.go:225-231 | Every step of informer and readers keeps that whenever the lock is free the two maps pair up |
| ReaderSnapshots.EventScriptPlays | pkg/apiserver/overlay/customresource_handler.go:166-354 | The locked steps of an event, played out, have the effect of the sequential handler |
| ReaderSnapshots.InvAlways | pkg/apiserver/overlay/customresource_handler.go:225-231 | The invariants in every reachable state of every interleaving |
| ReaderSnapshots.ReadersSeePairs | pkg/apiserver/overlay/customresource_handler.go:582-585 | A reader gets scope and storage of one version of one definition of the plural it asked for, or neither |
| ReaderSnapshots.PairMeaning | pkg/apiserver/overlay/customresource_handler.go:582-585 | Such a pair serves that plural and agrees on group, version, kind and namespacing |
| ReaderSnapshots.ScaleNeverAlone | pkg/apiserver/overlay/customresource_handler.go:632-710 | Between any two locked steps names are unique and a scale entry is listed only beside its main entry |
| ReaderSnapshots.QuiescentIsSequential | pkg/apiserver/overlay/customresource_handler.go:304-354 | Between events the state is the one the sequential handler computes, whatever readers did |
| KubeVersions.CanonicalParseInjective | pkg/utils/apiresource.go:54-57 | Two canonical version strings that parse to the same version are the same string |
| KubeVersions.CompareTransitive | pkg/utils/apiresource.go:54-57 | The version comparison is transitive, parsed or not |
| KubeVersions.TieExactly | pkg/utils/apiresource.go:54-57 | Two versions tie iff equal or parsed to the same version |
| VersionOrder.ParsedExactly | pkg/utils/apiresource.go:54-57 | A string parses iff it is v and a number, alone or followed by beta or alpha and a number |
| VersionOrder.ValueOfDecimal | pkg/utils/apiresource.go:54-57 | The number read from a decimal is the number written |
| VersionOrder.GaByNumber | pkg/utils/apiresource.go:54-57 | Of two GA versions the larger number is put first |
| VersionOrder.StagedByNumbers | pkg/utils/apiresource.go:54-57 | Of two betas, or two alphas, the larger first number is put first, and for equal ones the larger second |
| VersionOrder.StagesInOrder | pkg/utils/apiresource.go:54-57 | Every GA version is put before every beta and every beta before every alpha, whatever the numbers |
| VersionOrder.VersionsFirst | pkg/utils/apiresource.go:54-57 | Every version is put before every other string |
| VersionOrder.OthersByText | pkg/utils/apiresource.go:54-57 | Other strings go by their text |
| VersionOrder.LexByFirstDifference | pkg/utils/apiresource.go:42-44 | The text order is decided at the first difference, and a proper prefix is smaller |
| VersionOrder.DocumentedChain | pkg/utils/apiresource.go:54-57 | v2, v1, v1beta2, v1beta1, v1alpha1 |
| VersionOrder.NumbersNotText | pkg/utils/apiresource.go:54-57 | v10 before v2, and v1 before v12alpha1 |
| Normalization.LessTransitive | pkg/utils/apiresource.go:41-58 | The comparator is transitive, preferred version included |
| Normalization.LessIrreflexive | pkg/utils/apiresource.go:41-58 | No entry is before itself, and never each before the other |
| Normalization.LessTotalExactly | pkg/utils/apiresource.go:41-58 | The comparator orders all distinct (version, name) pairs iff no two versions but the preferred one tie |
| Normalization.CanonicalSeparated | pkg/utils/apiresource.go:41-58 | Canonically written versions never tie |
| Normalization.Gather | pkg/utils/apiresource.go:30-37 | The gathering of some order of the versions; whatever the order, each (version, name) has exactly its offered entries |
| Normalization.SortKeepsSorted | pkg/utils/apiresource.go:39-58 | The sort leaves what is sorted already as it is, ties included |
| Normalization.SortSorts | pkg/utils/apiresource.go:39-58 | Without ties the sort sorts |
| Normalization.PickFirsts | pkg/utils/apiresource.go:60-70 | The loop with the map of registered names keeps exactly the first entry of each name |
| Normalization.StableSort | pkg/utils/apiresource.go:39-58 | Entries of one (version, name) keep their order; without ties the result is sorted |
| Normalization.SortedIsUnique | pkg/utils/apiresource.go:39-58 | Without ties there is only one sorted arrangement |
| Normalization.NormalizeAPIGroupResources | pkg/utils/apiresource.go:29-71 | The outcome of some map order. Always: every offered name exactly once, by an entry some version offers for it. Without ties: by the best version, and this one result is the only one |
| Normalization.FirstWinsCovers | pkg/utils/apiresource.go:60-70 | Picking first entries out of any gathering keeps each offered name once, however ties fall |
| Normalization.FirstWinsKeepsFirsts | pkg/utils/apiresource.go:60-70 | Each name once, none lost, each entry the first of its name |
| Normalization.NormalizationChooses | pkg/utils/apiresource.go:28-71 | Without ties each name comes from the preferred version if that offers it, else from the highest that does |
| VersionOrder.ResultIsOffered | pkg/utils/apiresource.go:30-37 | Exactly the offered names are returned, once each, and each entry is one that a version sent, with the group's name and that version written over it |
| VersionOrder.PreferredWins | pkg/utils/apiresource.go:46-52 | A name that the preferred version offers comes from it |
| VersionOrder.HigherWins | pkg/utils/apiresource.go:54-57 | A name does not come from a version other than the preferred one when a version above offers it |
| VersionOrder.ResultInOrder | pkg/utils/apiresource.go:39-58 | The result goes by version, the preferred one first and then higher ones, and by name within a version |
| VersionOrder.FoosOfV2 | pkg/utils/apiresource.go:29-71 | foos under v1 and v2 with another version preferred: the result is foos of v2, in every map order |
| Normalization.NormalizationDeterministic | pkg/utils/apiresource.go:29-71 | Without ties every map order gives the same result, repeated names included |
| Normalization.TieDependsOnOrder | pkg/utils/apiresource.go:29-71 | With two tied versions among any others, the algorithm's result on a group offering one name under both depends on the map order |
| Normalization.OrderIndependentExactly | pkg/utils/apiresource.go:29-71 | For every set of versions: the result is independent of the map order, over all groups with those versions, iff no two tie |
| Normalization.V1TiesV01 | pkg/utils/apiresource.go:54-57 | Two different version strings that tie |
| Watch.InvAlways | pkg/utils/watch.go:46-94 | Lossless forwarding, mutual exclusion and the buffer bound in every reachable state |
| Watch.ForwardsInOrder | pkg/utils/watch.go:57-85 | The consumer has a prefix of the upstream events as forwarded, types unchanged; after Run has finished nothing it took is lost |
| Watch.FixupApplied | pkg/utils/watch.go:73-82 | In every reachable state each event consumed, waiting or in hand has the object that the fixup makes of its upstream event's, or that very object without a fixup |
| Watch.NeverStoppedInLoop | pkg/utils/watch.go:46-62 | The upstream watcher is never stopped while Run is in its loop |
| Watch.StopWaitsForRun | pkg/utils/watch.go:46-62 | A Stop that arrives during the loop cannot proceed until Run returns |
| Watch.CancelFreesRunExactly | pkg/utils/watch.go:64-84 | In every reachable state in the loop after a cancellation Run can move on its own iff the consumer is at most the channel's size behind |
| Watch.StuckIsReachable | pkg/utils/watch.go:57-94 | For every channel size an execution from the start reaches a cancelled Run that cannot move |
| Watch.StrandedWithoutConsumer | pkg/utils/watch.go:46-85 | From then on, over every continuation in which the consumer takes nothing, Run stays where it is and every Stop waits |

## Left out

- HTTP serving, go-restful dispatch, content negotiation, admission, serializers and self links beyond their prefix.
- The dry-run request: a parameter that answers an object or an error.
- Bytes of JSON: manifests are trees; numbers are integers; decoding asks for an object with a non-empty kind.
- Server-side label validation, quotas and remote faults other than missing, existing and conflicting records; a failed call leaves the store as it was, except that a delete inside DeleteCollection may fail after having deleted.
- List paging (Limit, Continue), list metadata, numeric label comparisons, and a selector that selects nothing.
- Server finalizers that delay a delete; a delete removes the record at once.
- The server's no-op detection: an accepted update always takes a new version.
- Resource versions are numbers, 0 standing for the empty string.
- The created flag and the name of the object in error texts.
- The Namespace kind, cluster-scoped objects in the tenant store, Scale and other subresources beyond the branch that rejects them; runs are about namespaced kinds.
- Panics, HandleCrash and logging; slice expressions out of range are an explicit result of the username parser.
- DeleteCollection is a step machine on values, not a class method: goroutines, channels and the wait group are its state.
- REST.Watch only as the forwarder; the fixup is a parameter.
- Two live definitions that share a plural: all entries are keyed by plural, and agreement is claimed for distinct plurals.
- The window before the web service is attached: handlers run only after it is set.
- Sharing of memory between the slices that ListAPIResources appends; slices are values here.
- Equivalent-resource registry and serializers of a request scope, except its kind, group, version, resource, status and scale.
- sort.SliceStable and CompareKubeAwareVersionStrings are library code that is not part of the repository; a stable insertion sort and the order that VersionOrder proves of version strings stand for them. The library may merge longer inputs differently, which matters only where versions tie.
- Memory model and fairness: steps are atomic between lock operations and channel operations.
- Command line, options, wiring, generated clients, certificates, Envoy and shell files other than the account name format.
- Routes.WebService.RemoveRoute: stands for the library's removal on tables that hold the pair of path and method once; other tables are not described.
- Registration.RegistrationRefinesLedger: asks for slash-free plurals and distinct version names within a definition, as Kubernetes validates them; its part about the whole table in order needs plurals that keep their scope and take no route of each other; RouteServing says what holds of the routes without the latter, and RouteServing.RescopedTwice what happens without the former.
- Normalization.StableSort: promises a sorted result only when no versions tie, since with ties the comparator is not a consistent order.
