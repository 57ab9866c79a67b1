# Verified models of ks-devops

This project models two parts of ks-devops in Dafny 4.11 and proves what they are for.

- **The GitOps controllers**, as step machines over an object store: the Argo CD application controller (naming,
  convergence, deletion, retried updates), the Argo CD repository controller, the Flux application and status
  controllers, and the pair of controllers that link repositories and webhooks.
- **Algorithms of the embedded Swagger UI bundle**: the immutable hash trie and the ordered map on top of it, the
  least-recently-used queue, the padding of the block hashes, Base64, UTF-8, and YAML's double-quoted scalars.

`dafny verify dfyconfig.toml` checks everything; no proof needs a raised time or resource limit.

## How the model is laid out

| file | content |
|---|---|
| `Objects`, `Options`, `Units` | keys, versions, faults, finalizer lists; optional values; bytes, code units, surrogates |
| `CommaList`, `LinkNotify` | the comma-joined set of names, and the two controllers that wake each other |
| `ArgoStore`, `ArgoApplication` | the Argo CD store, and one pass as a function and as the code runs it |
| `ArgoNaming`, `ArgoConvergence` | naming safety over runs; fixed points of passes |
| `ArgoDeletion` | deletion, one API call at a time |
| `RetryUpdate`, `ArgoRetries` | read-change-write under conflicts, and the controller's three uses of it |
| `FluxNames`, `FluxHelm`, `FluxConvergence`, `FluxStatus` | release names, the release pass, its guarantees, and the ready label |
| `GitRepoSecret` | the repository secrets, one API call at a time |
| `Bits`, `Popcount`, `Entries`, `Trie`, `TrieProofs`, `ImmutableMap`, `TrieItems`, `OrderedMap` | the maps |
| `LruQueue`, `BlockHash`, `Base64`, `Utf8` | the queue and the codecs |
| `YamlEscape`, `YamlScan`, `YamlRoundTrip`, `YamlFolding` | writer, reader, their round trip, and what the reader accepts |

The store follows Kubernetes: a write with a stale version is a conflict, a write that changes nothing raises no event,
deleting an object with finalizers only marks it, and a marked object that loses its last finalizer is gone.

## What turned out not to hold

- **A name is not always linked.** The substring test finds "b" in "ab,c", so that repository is never added and never
  notified (`CommaList.LinkedButAbsent`). `CommaList.LinkedMeans` and `InsertedIff` say exactly when.
- **Naming is not safe over a torn deletion.** A pass that stops between deleting the Argo CD object and releasing the
  Application lets another Application take the name while the first still records it
  (`ArgoNaming.TornDeletionClashes`); every other stop is harmless (`ArgoNaming.PassKeepsIff`). A cascade finalizer on an
  Application that has no recorded name yet deletes a namesake's object (`ArgoNaming.EarlyCascadeDeletesAnother`); a
  deletion spares the other's object exactly when a name is recorded or the two names differ
  (`ArgoNaming.DeletionSparesIff`).
- **One pass is not always enough.** An update can take away the last finalizer of an object that is marked for
  deletion; the next pass then creates it again (`ArgoConvergence.OnePassConvergesIff`).
- **setArgoProject can lose a finalizer** that was added between its two reads (`ArgoRetries.SettingLosesAFinalizer`);
  `ArgoRetries.SettingKeepsFinalizersIff` gives the exact condition over the whole call. The other two retried updates
  lose nothing.
- **Release names can collide** when a namespace holds a dash (`FluxNames.TwoReadings`, `FluxNames.SameNameIff`), and two
  deploys of one name make two releases (`FluxConvergence.SameNameIsCreatedTwice`). A pass keeps names unique exactly
  when every name that occurs twice was owned before it (`FluxConvergence.PassUniqueIff`).
- **The last-revision annotation depends on the order of a map's entries** unless all releases agree on the revision
  (`FluxStatus.RevisionIndependentIff`). The comment on the ready label promises "readyNumber/totalNumber"; the code joins
  the two with a dash, and so does the model.
- **Namesakes in two namespaces share one secret**, and deleting one takes it from the other, which is live
  (`GitRepoSecret.SharedSecretIsLost`); a deletion leaves another repository its secret exactly when the names differ
  (`GitRepoSecret.SecretIsKeptIff`).
- **UTF-8 gives a text back exactly when every surrogate is paired** (`Utf8.RoundTripIff`); `Utf8.DecodeEncode` says what
  becomes of the others, a last lead surrogate after another one being dropped.

## Assumptions

- Reads are current. Generated names are suffixes given from outside; where a result needs them to be unused it says so.
- In `ArgoNaming` and `ArgoConvergence` a pass is one step that may stop after any of its writes. In `ArgoDeletion`,
  `RetryUpdate`, `FluxHelm` and `GitRepoSecret` others act between any two calls, and calls fail. In `LinkNotify` an event
  is one step whose updates fail one by one.
- `ArgoNaming`: only the controller's own finalizer and the cascade finalizer occur, users add them only once a name is
  recorded, and then keep the recorded name and the location; nobody else deletes Argo CD applications or edits their
  back labels, project and destination.
- `ArgoDeletion`: nobody adds finalizers to a marked Application, which the API server forbids, and users leave the
  controller's finalizer in place. The recorded name and the location change at any time but while a pass over the marked
  Application is under way. One Application object, live or marked at the start, is followed to its end.
- `LinkNotify`: calls of the Git hook service succeed, repositories and webhooks are edited by nobody else, and at the
  start every repository with a link to make is queued.
- `GitRepoSecret`: at most one pass per repository at a time, and only this controller handles the finalizer.
- Trie keys carry their 32-bit hash, so equal keys have equal hashes; unequal keys may share one.

## Model

| member | source | states |
|---|---|---|
| Objects.RemoveString | pkg/utils/sliceutil/sliceutils.go:20-28 | the in-place loop leaves the list without any occurrence of the item, the rest in order |
| Objects.RemovedIsGone | pkg/utils/k8sutil/objectmeta.go:36-38 | a removed finalizer is gone and every other one stays |
| CommaList.LinkedMeans | controllers/gitrepository/gitrepository_webhook_controller.go:239 | the substring test passes iff the name is the whole value, starts a piece after the first, or ends a piece before the last |
| CommaList.AddToPieces | controllers/gitrepository/gitrepository_webhook_controller.go:238-246 | insertion leaves the pieces alone or appends exactly the name, which was missing |
| CommaList.AddLinks | controllers/gitrepository/gitrepository_webhook_controller.go:233-248 | after insertion the name passes the test |
| CommaList.AddTwice | controllers/gitrepository/gitrepository_webhook_controller.go:233-248 | inserting twice is inserting once |
| CommaList.OthersAreKept | controllers/gitrepository/gitrepository_webhook_controller.go:233-248 | insertion changes no annotation but the one of its key |
| CommaList.LinkedStays | controllers/gitrepository/gitrepository_webhook_controller.go:233-248 | inserting another name breaks no link |
| CommaList.InsertedIff | controllers/gitrepository/gitrepository_webhook_controller.go:233-248 | an inserted name is a piece iff it was one or the test failed |
| CommaList.LinkedButAbsent | controllers/gitrepository/gitrepository_webhook_controller.go:239 | the test passes for "b" in "ab,c", which has no such piece |
| CommaList.SplitIsFirstSeen | controllers/gitrepository/webhook_notify.go:70-75 | names that do not start or end one another are visited once each, in the order of their first link |
| LinkNotify.Controllers.LinkToWebhooks | controllers/gitrepository/gitrepository_webhook_controller.go:205-219 | the loop links every reference, whichever updates fail, with effect or without, and fails iff one did or some webhook is missing |
| LinkNotify.Controllers.ReconcileRepo | controllers/gitrepository/gitrepository_webhook_controller.go:205-231 | one event of the repository controller as a function of the store, both queues and the faults of its updates |
| LinkNotify.Controllers.NotifyGitRepos | controllers/gitrepository/webhook_notify.go:68-81 | the loop stamps every named repository, whichever updates fail, and fails iff one did or some repository is missing |
| LinkNotify.Controllers.ReconcileHook | controllers/gitrepository/webhook_notify.go:44-66 | one event of the webhook controller, with the requeue on failure |
| LinkNotify.RepoStepProgress | controllers/gitrepository/gitrepository_webhook_controller.go:205-248 | a repository event undoes no link, makes each whose update took effect, raises a webhook event only for a link that was missing, and stays queued iff an update failed |
| LinkNotify.RepoStepAdds | controllers/gitrepository/gitrepository_webhook_controller.go:205-248 | a repository event adds its name, and no other, to exactly the referenced webhooks that do not list it and whose update took effect, and queues exactly these |
| LinkNotify.HookStepProgress | controllers/gitrepository/webhook_notify.go:44-99 | a webhook event leaves every webhook alone and stays queued iff an update failed; what it writes is in `HookStepNotifies` |
| LinkNotify.HookStepNotifies | controllers/gitrepository/webhook_notify.go:68-99 | a webhook event gives every named repository the stamp of the last notification that took effect, queues each that changed, and leaves the others alone |
| LinkNotify.NextMeasure | controllers/gitrepository/webhook_notify.go:44-99 | an event without a fault makes the lexicographic measure smaller, and one with a fault adds at most the number of repositories to it |
| LinkNotify.RunsAreBounded | controllers/gitrepository/gitrepository_webhook_controller.go:205-248 | no run of the two controllers, in any order of events, outlasts the measure by more than its faults make up for |
| LinkNotify.StuckIsQuiescent | controllers/gitrepository/webhook_notify.go:44-99 | a run that cannot go on has drained both queues and linked every repository to each of its webhooks |
| ArgoStore.ArgoFinalizersJoin | controllers/argocd/application_controller.go:353-360 | the finalizers that Argo CD understands keep their order and their number |
| ArgoApplication.BuildMetaMeans | controllers/argocd/application_controller.go:204-225 | the built object has the back labels, exactly the supported labels and annotations, and exactly the understood finalizers |
| ArgoApplication.BuildSpecMeans | controllers/argocd/application_controller.go:193-235 | default project, at most one kind of destination with the name winning, the rest as wanted |
| ArgoApplication.Controller.CopyArgoEntries | controllers/argocd/application_controller.go:239-261 | copying entry by entry, in any order, adds exactly the supported ones |
| ArgoApplication.Controller.CopyArgoFinalizers | controllers/argocd/application_controller.go:353-360 | the loop keeps the understood finalizers in order |
| ArgoApplication.Controller.CreateUnstructured | controllers/argocd/application_controller.go:188-237 | the statements build the object of the specification |
| ArgoApplication.Controller.DeleteArgoApp | controllers/argocd/application_controller.go:349-380 | copy, then delete, with the store left by every number of successful writes |
| ArgoApplication.Controller.Run | controllers/argocd/application_controller.go:57-186 | the calls of a pass, stopped after any write, are the pass of the specification |
| ArgoNaming.NamesAreUnique | controllers/argocd/application_controller.go:72-186 | the invariant lets no two Applications record one name in one Argo CD namespace |
| ArgoNaming.BuildBelongs | controllers/argocd/application_controller.go:188-237 | a built object points back, has its owner's project and at most one kind of destination |
| ArgoNaming.RefreshBelongs | controllers/argocd/application_controller.go:154-172 | an updated object still does |
| ArgoNaming.DeleteKeepsIff | controllers/argocd/application_controller.go:88-105 | a deleting pass keeps the invariant iff it does not stop between its last two writes |
| ArgoNaming.PassKeepsIff | controllers/argocd/application_controller.go:72-186 | so does any pass, wherever it stops, with any generated suffix |
| ArgoNaming.NamingSafety | controllers/argocd/application_controller.go:72-281 | from a store without Applications every run keeps the invariant |
| ArgoNaming.TornDeletionClashes | controllers/argocd/application_controller.go:88-105 | the excluded stop leads to two Applications with one name |
| ArgoNaming.DeletionSparesIff | controllers/argocd/application_controller.go:82-105 | with any finalizers on k, its whole deletion leaves the object recorded by another Application unchanged iff k has a recorded name or would take another one |
| ArgoNaming.EarlyCascadeDeletesAnother | controllers/argocd/application_controller.go:82-105 | an early cascade finalizer deletes a namesake's object |
| ArgoNaming.RivalsExist | controllers/argocd/application_controller.go:72-186 | a concrete state in which both failures apply |
| ArgoConvergence.FixedIff | controllers/argocd/application_controller.go:107-186 | a pass changes nothing iff the Application is settled or its creation is blocked |
| ArgoConvergence.PassSettles | controllers/argocd/application_controller.go:107-186 | one pass settles or blocks, except over an object that vanishes; settled means that the object holds what the Application wants, field by field |
| ArgoConvergence.UpdatePutsWanted | controllers/argocd/application_controller.go:154-172 | a pass over an existing object puts in it the wanted project, destination, rest, operation, understood finalizers, supported labels and annotations, keeps its other labels and annotations and its mark, and touches no other object |
| ArgoConvergence.PassKeepsApps | controllers/argocd/application_controller.go:107-186 | wherever a pass over a live Application stops, it has written at most the name label, the project and its finalizer on it, and nothing on another one |
| ArgoConvergence.TwoPassesConverge | controllers/argocd/application_controller.go:107-186 | after two passes further ones change nothing, whichever branch came first |
| ArgoConvergence.OnePassConvergesIff | controllers/argocd/application_controller.go:107-186 | one pass is enough iff no object vanishes that would be created again |
| ArgoConvergence.BuiltNamed | controllers/argocd/application_controller.go:188-281 | recording the name, setting the project and adding the finalizer do not change what is built |
| RetryUpdate.Client.RetryOnConflict | controllers/argocd/application_controller.go:266-279 | the loop of attempts, with other writers between the calls, is the retry of the specification |
| RetryUpdate.RetryIsAtomic | controllers/argocd/application_controller.go:263-281 | success means one write, made to the object as all others had left it; an error means nothing was written |
| RetryUpdate.QuietAttemptEnds | controllers/argocd/application_controller.go:266-279 | a retry gives up on conflicts only if others wrote between the read and the write of every attempt |
| RetryUpdate.UnhinderedSucceeds | controllers/argocd/application_controller.go:266-279 | without faults and deletions a retry succeeds once an attempt is left undisturbed, and otherwise ends in success or a conflict |
| ArgoRetries.RecordingLosesNothing | controllers/argocd/application_controller.go:263-281 | against what the others left, the name label has the name and every other label and field is the same; the object goes iff it was marked and held no finalizer |
| ArgoRetries.ReleasingLosesNothing | controllers/argocd/application_controller.go:330-346 | only the two finalizers go; the object goes iff it was marked and held no others |
| ArgoRetries.SettingKeepsFinalizersIff | controllers/argocd/application_controller.go:284-327 | the whole call writes at most once; without a write it reports success iff the first read found nothing or all in place; with one, the others' finalizers survive iff nobody changed them, but for the controller's own, since the first read, and the rest but the project is theirs |
| ArgoRetries.SettingLosesAFinalizer | controllers/argocd/application_controller.go:284-327 | a run in which a user's finalizer is lost and success is reported |
| ArgoRetries.AppClient.SetArgoProject | controllers/argocd/application_controller.go:284-327 | the statements are the call that `SettingKeepsFinalizersIff` is about |
| ArgoDeletion.NextKeeps | controllers/argocd/application_controller.go:82-105 | every call, crash, edit and foreign write, a new recorded name included, keeps each pass where its record of what was seen allows it |
| ArgoDeletion.ReleaseNeedsGone | controllers/argocd/application_controller.go:330-346 | only a step that follows the object's end takes the controller's finalizer off |
| ArgoDeletion.DeletionOrdering | controllers/argocd/application_controller.go:82-105 | in every run from a live or marked Application, before the finalizer goes the object that it names was absent, or held the cascade finalizers and was then gone or marked |
| ArgoDeletion.WholePassDeletes | controllers/argocd/application_controller.go:330-380 | undisturbed, the calls one by one do what the pass does in one step |
| FluxNames.SameNameIff | controllers/fluxcd/application-controller.go:339-346 | two destinations share a name iff they are equal or a dash in one namespace can end the other's secret |
| FluxNames.DistinctNames | controllers/fluxcd/application-controller.go:339-346 | distinct destinations with dash-free namespaces have distinct names |
| FluxNames.TwoReadings | controllers/fluxcd/application-controller.go:339-346 | two destinations with the name "a-b-c" |
| FluxHelm.Controller.SaveTemplate | controllers/fluxcd/application-controller.go:357-373 | an existing template wins over the application's own chart, a missing one is created |
| FluxHelm.Controller.ListReleases | controllers/fluxcd/application-controller.go:151-162 | the loop indexes the listed releases by annotation name |
| FluxHelm.Controller.DeployReleases | controllers/fluxcd/application-controller.go:164-182 | the loop creates or updates a release per deploy, refreshes the index by each update and stops at the first error |
| FluxHelm.Controller.ReconcileHelmRelease | controllers/fluxcd/application-controller.go:105-145 | the statements are the pass of the specification |
| FluxConvergence.PassKeepsUnique | controllers/fluxcd/application-controller.go:105-232 | a pass keeps release names unique, whatever others do and whichever call fails, with or without effect |
| FluxConvergence.RunKeepsUnique | controllers/fluxcd/application-controller.go:105-232 | over every run an application owns at most one release of a name |
| FluxConvergence.NilPassSettles | controllers/fluxcd/application-controller.go:147-232 | a pass without error leaves each deploy a release with its name, cluster and namespace, settings, and the chart in effect, and touches nothing else |
| FluxConvergence.EffectiveChartMeans | controllers/fluxcd/application-controller.go:105-140 | the chart in effect is the template asked for, or else the one saved before, or else has the application's source, chart, version, strategy, values files and interval, or ten minutes |
| FluxConvergence.SettledIsFixed | controllers/fluxcd/application-controller.go:147-232 | a further pass succeeds and changes nothing |
| FluxConvergence.SmoothPassSucceedsIff | controllers/fluxcd/application-controller.go:105-232 | without faults a pass fails only for want of a chart |
| FluxConvergence.PassUniqueIff | controllers/fluxcd/application-controller.go:147-182 | for any deploys, an undisturbed pass without an error keeps names unique iff every name that occurs twice among them was owned before it |
| FluxConvergence.SameNameIsCreatedTwice | controllers/fluxcd/application-controller.go:164-182 | a pass over two deploys of one name that returns without an error and leaves two releases |
| FluxStatus.Reconciler.CountReady | controllers/fluxcd/fluxcd-application-status-controller.go:107-115 | the loop over the map, in any order, computes the count and the last revision |
| FluxStatus.CountIsReady | controllers/fluxcd/fluxcd-application-status-controller.go:107-111 | the count is the number of ready entries for every order |
| FluxStatus.RevisionIndependentIff | controllers/fluxcd/fluxcd-application-status-controller.go:112-114 | the revision does not depend on the order iff all entries agree on it |
| FluxStatus.LabelRoundTrip | controllers/fluxcd/fluxcd-application-status-controller.go:116 | the printed label reads back as the same two numbers |
| FluxStatus.LatestMeans | controllers/fluxcd/fluxcd-application-status-controller.go:95-99 | the stored status of a name is that of the last event that stored one |
| FluxStatus.LabelCountsLatest | controllers/fluxcd/fluxcd-application-status-controller.go:77-125 | after every successful pass of any run the map holds the latest statuses, the label counts them, and the revision is one of theirs |
| GitRepoSecret.SecretObject.SetArgoGitRepoFields | controllers/argocd/git-repository-controller.go:123-156 | the maps are filled in place as specified, credentials only for basic authentication |
| GitRepoSecret.WithRepoMeans | controllers/argocd/git-repository-controller.go:123-156 | the secret gets its type, its address and the basic credentials referred to, and keeps every other field and label, older credentials included |
| GitRepoSecret.NextKeeps | controllers/argocd/git-repository-controller.go:49-121 | every call, crash and edit keeps each secret guarded |
| GitRepoSecret.NoOrphanSecret | controllers/argocd/git-repository-controller.go:49-121 | in every run a secret "name-repo" means that a repository of that name exists and holds the finalizer |
| GitRepoSecret.NamesDiffer | controllers/argocd/git-repository-controller.go:158-160 | different names have different secrets |
| GitRepoSecret.LivePassStores | controllers/argocd/git-repository-controller.go:67-121 | an undisturbed pass gives a live repository the finalizer besides its others, and its secret |
| GitRepoSecret.DeletePassClears | controllers/argocd/git-repository-controller.go:75-95 | an undisturbed pass takes both from a marked one; its other finalizers stay, and it goes iff it has none |
| GitRepoSecret.SecretIsKeptIff | controllers/argocd/git-repository-controller.go:75-95 | an undisturbed pass over a marked repository leaves another one its secret iff their names differ, and its finalizer always |
| GitRepoSecret.SharedSecretIsLost | controllers/argocd/git-repository-controller.go:75-95 | a state with two namesakes in which the live one loses its secret |
| Popcount.PopcountIsCount | assets/swagger-ui/swagger-ui-standalone-preset.js:1 | the word trick of `se` counts the set bits of every 32-bit word |
| Popcount.SlotByPopcount | assets/swagger-ui/swagger-ui-standalone-preset.js:1 | the count of the masked bitmap is the slot of a digit |
| Bits.DigitsDetermine | assets/swagger-ui/swagger-ui-standalone-preset.js:1 | two hashes that agree on all seven 5-bit digits are equal, so splitting leaves ends |
| Bits.SetInserts | assets/swagger-ui/swagger-ui-standalone-preset.js:1 | setting a bit shifts the slots above it by one and no other |
| Bits.ClearInserts | assets/swagger-ui/swagger-ui-standalone-preset.js:1 | clearing a bit shifts them back |
| Entries.FindIndex | assets/swagger-ui/swagger-ui-standalone-preset.js:1 | the search loop over entries finds the first with the key, or the length |
| Entries.EditCorrect | assets/swagger-ui/swagger-ui-standalone-preset.js:1 | editing a short entry list, with the swap of the last entry on removal, changes the lookup of one key alone |
| Trie.ExpandNodes | assets/swagger-ui/swagger-ui-standalone-preset.js:1 | the loop spreads a compressed array over 32 slots and counts them |
| Trie.PackNodes | assets/swagger-ui/swagger-ui-standalone-preset.js:1 | the loop packs slots into a bitmap and an array |
| TrieProofs.MergeCorrect | assets/swagger-ui/swagger-ui-standalone-preset.js:1 | splitting a leaf gives a well-formed node with both keys and no other |
| TrieProofs.UpdateCorrect | assets/swagger-ui/swagger-ui-standalone-preset.js:1 | an update of any of the node kinds keeps the shape, changes one key, and flags exactly a change and a change of size |
| ImmutableMap.StoreCorrect | assets/swagger-ui/swagger-ui-standalone-preset.js:1 | set and remove change one lookup, and the size by the key that came or went |
| ImmutableMap.StoreRefines | assets/swagger-ui/swagger-ui-standalone-preset.js:1 | the trie follows a finite map through one request |
| ImmutableMap.Run | assets/swagger-ui/swagger-ui-standalone-preset.js:1 | and through every sequence of requests on the empty map |
| TrieItems.MapItemsAre | assets/swagger-ui/swagger-ui-standalone-preset.js:1 | iteration visits each pair once and nothing else, and the size is the number of visits |
| OrderedMap.GetCorrect | assets/swagger-ui/swagger-ui-standalone-preset.js:1 | lookups through the index agree with the list of live pairs |
| OrderedMap.CompactCorrect | assets/swagger-ui/swagger-ui-standalone-preset.js:1 | compaction leaves exactly the other live pairs, in order, freshly indexed |
| OrderedMap.UpdateRefines | assets/swagger-ui/swagger-ui-standalone-preset.js:1 | an update follows an insertion-ordered association list and keeps the length bound |
| OrderedMap.RunRefines | assets/swagger-ui/swagger-ui-standalone-preset.js:1 | after every run lookups and size agree, and the list is at most max(m+31, 2m+1) long for m keys |
| LruQueue.Queue.Hit | assets/swagger-ui/swagger-ui-standalone-preset.js:21 | a hit moves the id to the end, pushes out exactly the oldest over the limit, and keeps the maps inverse and the base least |
| LruQueue.Queue.Delete | assets/swagger-ui/swagger-ui-standalone-preset.js:21 | a deletion takes one id out of the order |
| LruQueue.Queue.Clear | assets/swagger-ui/swagger-ui-standalone-preset.js:21 | clearing empties the order |
| LruQueue.Queue.Advance | assets/swagger-ui/swagger-ui-standalone-preset.js:21 | the base moves up to the next live index |
| LruQueue.RunIsByRecency | assets/swagger-ui/swagger-ui-standalone-preset.js:21 | after every run of hits, deletions and clearings at most the limit is held, in the order of the last hits |
| LruQueue.RunKeepsMostRecent | assets/swagger-ui/swagger-ui-standalone-preset.js:21 | an id that is missing without a deletion was pushed out by a full queue of ids hit after it |
| LruQueue.HitReturnsOldest | assets/swagger-ui/swagger-ui-standalone-preset.js:21 | the id that a hit returns is the one of those held that was hit longest ago, and it alone left; none is returned iff none left |
| BlockHash.Hash.Update | assets/swagger-ui/swagger-ui-standalone-preset.js:1 | after any pieces the full blocks are compressed and the buffer holds the rest |
| BlockHash.Hash.Digest | assets/swagger-ui/swagger-ui-standalone-preset.js:1 | the blocks compressed are those of the padded message |
| BlockHash.HashPieces | assets/swagger-ui/swagger-ui-standalone-preset.js:1 | any cutting into updates and one digest compress the blocks of the padded whole |
| BlockHash.PaddedBlocks | assets/swagger-ui/swagger-ui-standalone-preset.js:1 | padding adds one block, or two when the length field no longer fits |
| BlockHash.PaddingIsInjective | assets/swagger-ui/swagger-ui-standalone-preset.js:1 | different messages are padded to different ones |
| BlockHash.PaddedFits | assets/swagger-ui/swagger-ui-standalone-preset.js:1 | a padded message fills its last block |
| Base64.FromByteArray | assets/swagger-ui/swagger-ui-standalone-preset.js:21 | encoding in chunks of 16383 bytes is encoding in one piece |
| Base64.EncodeMeans | assets/swagger-ui/swagger-ui-standalone-preset.js:21 | every group of three bytes is spelled by four letters of the alphabet of RFC 4648, section 4, highest bits first, with padding for letters that no byte reaches |
| Base64.ValueMeans | assets/swagger-ui/swagger-ui-standalone-preset.js:21 | the decoder reads the letters of the alphabet and the two URL-safe ones, and anything else as zero |
| Base64.EncodeLength | assets/swagger-ui/swagger-ui-standalone-preset.js:21 | the length formula |
| Base64.ToByteArray | assets/swagger-ui/swagger-ui-standalone-preset.js:21 | the decoder's loop and tail, with writes past the array lost, are the decoding of any string |
| Base64.RoundTrip | assets/swagger-ui/swagger-ui-standalone-preset.js:21 | decoding an encoding gives the bytes back, and the computed byte length is theirs |
| Utf8.ToBytes | assets/swagger-ui/swagger-ui-standalone-preset.js:13 | the encoder's loop with its limit on the bytes, of which zero is none, and the surrogate it holds back |
| Utf8.WithinMeans | assets/swagger-ui/swagger-ui-standalone-preset.js:13 | within a limit come the bytes of the longest prefix of the code points that fits |
| Utf8.ToUnits | assets/swagger-ui/swagger-ui-standalone-preset.js:13 | the decoder's loop ends on every byte sequence, taking at least one byte a step |
| Utf8.CodeRoundTrip | assets/swagger-ui/swagger-ui-standalone-preset.js:13 | the bytes of a code point are read as that code point |
| Utf8.CodeAtIff | assets/swagger-ui/swagger-ui-standalone-preset.js:13 | a code point is read exactly where its own bytes are, so no overlong form, surrogate or larger number is accepted |
| Utf8.DecodeMeans | assets/swagger-ui/swagger-ui-standalone-preset.js:13 | decoding takes a code point where the bytes of one are, and replaces one byte elsewhere |
| Utf8.DecodeEncode | assets/swagger-ui/swagger-ui-standalone-preset.js:13 | decoding an encoding repairs exactly the lone surrogates |
| Utf8.DecodeEncodeWithin | assets/swagger-ui/swagger-ui-standalone-preset.js:13 | with a limit it gives a prefix of the repaired text in no more bytes than that, and no character is cut in two |
| Utf8.RoundTripIff | assets/swagger-ui/swagger-ui-standalone-preset.js:13 | it gives the text back iff the text is well formed |
| Utf8.DecodeSettles | assets/swagger-ui/swagger-ui-standalone-preset.js:13 | whatever the bytes, the decoded text is well formed and survives another round |
| YamlEscape.EscapeString | assets/swagger-ui/swagger-ui-standalone-preset.js:21 | the writer's loop, with surrogate pairs escaped together |
| YamlEscape.WrittenIsVisible | assets/swagger-ui/swagger-ui-standalone-preset.js:21 | whatever the text, no control, surrogate, special space or separator is written |
| YamlEscape.VisibleIsKept | assets/swagger-ui/swagger-ui-standalone-preset.js:21 | text of other code units is written as it is, but for the quote and the backslash |
| YamlEscape.EncodeHexIs | assets/swagger-ui/swagger-ui-standalone-preset.js:21 | a numeric escape has its letter and exactly two, four or eight digits of the number |
| YamlRoundTrip.ShortUnitMeans | assets/swagger-ui/swagger-ui-standalone-preset.js:21 | the reader knows the short escapes of YAML 1.2, section 5.7, with their meanings and no others |
| YamlRoundTrip.ShortEscapeMeans | assets/swagger-ui/swagger-ui-standalone-preset.js:21 | the writer uses exactly the inverse of that table, the space, the slash and the second letter of the tab aside |
| YamlRoundTrip.HexDigitMeans | assets/swagger-ui/swagger-ui-standalone-preset.js:21 | digits of either case are read, and nothing else |
| YamlRoundTrip.HexValueIs | assets/swagger-ui/swagger-ui-standalone-preset.js:21 | the digit loop gives the number modulo 2^32 as a signed one |
| YamlScan.Scanner.SkipSeparationSpace | assets/swagger-ui/swagger-ui-standalone-preset.js:21 | the loop skips blanks, breaks and indentation and counts the breaks |
| YamlScan.Scanner.ReadDoubleQuotedScalar | assets/swagger-ui/swagger-ui-standalone-preset.js:21 | the reader's loop, with segments, escapes, folding and the document marker check, on any input |
| YamlRoundTrip.DigitsRoundTrip | assets/swagger-ui/swagger-ui-standalone-preset.js:21 | the 32-bit digit loop reads a written number back |
| YamlRoundTrip.RoundTrip | assets/swagger-ui/swagger-ui-standalone-preset.js:21 | wherever it stands in a document, a written scalar is read back exactly, lone surrogates included |
| YamlFolding.ScalarIsRead | assets/swagger-ui/swagger-ui-standalone-preset.js:21 | a scalar of any plain text, folds, continued lines and escapes is read with its meaning: one break is a space, of more the first is dropped, a continued line is joined; it is refused iff a line starts with a document marker |
| YamlFolding.ReadsExactlyScalars | assets/swagger-ui/swagger-ui-standalone-preset.js:21 | the reader succeeds exactly on such scalars, so bad escapes, control characters, markers and a missing quote are refused |

## Left out

- ArgoNaming.NamingSafety: holds under the assumptions above. The failures beside it show that a torn deletion and an early cascade finalizer must be excluded; the other assumptions are not shown to be needed.
- ArgoDeletion.DeletionOrdering: follows one Application object; one that is created again under the same name while an old pass is still under way is not followed.
- FluxConvergence.NilPassSettles: says nothing when others act during the pass, who may drop a release just written.
- LinkNotify.RunsAreBounded: is about runs in which every named object exists; otherwise a failed event is requeued for ever. A read that fails before its update counts as that update failing.
- LinkNotify.Controllers.ReconcileRepo: leaves out the calls of the Git hook service after the links, and the timer that brings back a repository without a secret.
- BlockHash.HashPieces: is limited to messages of fewer than 2^53 bytes, up to which the byte count is exact.
- Kustomization releases: the same create-or-update by name; their loop overwrites the error of every deploy but the last.
- Owner references, labels that only mark, events and logging: they do not take part in what is proved.
- The Git hook calls and the token lookup of the repository controller: input and output.
- Both repository controllers running together: they add and remove one finalizer.
- Owner ids, by which the trie updates nodes in place, and the immutable List, whose vector trie is a sequence here.
- Compression functions of the hashes: the blocks given to them are recorded.
- YAML's other scalar styles, and when the writer chooses the double-quoted one.
- Tests of equal identity in the bundle: they are tests of equal values here, so an update to an equal value is no change.
