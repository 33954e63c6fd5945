# Provider Ceph bucket reconciler: a verified model

Provider Ceph keeps one Bucket custom resource in step with S3 buckets on many
Ceph backends. One Bucket CR is fanned out over N backends by `Observe`,
`Create`, `Update` and `Delete`; each run of `Update` or `Delete` fills a table
of per-backend conditions, and the CR's status, labels and pause decision are
derived from that table. This project models that reconciler and proves what it
keeps under every schedule of its goroutines and every failure of its calls.

## How it is organised

| file | what it models |
|---|---|
| `Wrappers.dfy` | optional values, sums, finite-set facts (the pigeonhole) |
| `Api.dfy` | the Bucket CR: spec, labels, status, conditions |
| `CreateProtocol.dfy` | Create's goroutines, compare-and-swap, two channels and receive loop |
| `ObjectPurge.dfy` | the two page-by-page deletion loops, each with others interfering |
| `PurgeProtocol.dfy` | both loops together, down to single deletions, and the final bucket delete |
| `Sorting.dfy` | Go's string order, stable sorting by key, sorted listings |
| `LifecycleRules.dfy` | generation of S3 lifecycle rules, what they apply to, reading them back |
| `BucketBackends.dfy` | the table of conditions: the class and its replay as a function of writes |
| `BucketHelpers.dfy` | labels, the status, the pause decision |
| `SubResources.dfy` | the five sub-resource clients: observe, handle, convergence |
| `UpdateProtocol.dfy` | the fan-out machine of Update and what its table means |
| `DeleteProtocol.dfy` | Delete's goroutines, with users writing objects meanwhile |
| `Observe.dfy` | the fan-in of each sub-resource client, and Observe's decision |
| `Reconcile.dfy` | the API server and what each operation writes to it |
| `DisabledRuns.dfy` | whole runs of the reconciler on a disabled CR |
| `HealthCheck.dfy` | unpausing, the pause label over whole runs, request-id removal |
| `Controller.dfy` | Create, Update and Delete end to end under an arbitrary scheduler |

Concurrency is a state machine: a `State`, an `Event` per step of one goroutine,
`Enabled`, a step function, and `Run`, which plays a sequence of events. A
theorem about `Run(c, run) == Some(s)` is about every interleaving. The methods
of `Controller` and `FanOut` then execute such a machine with an arbitrary
choice of the next event, and prove that the choice always exists and that the
execution ends. Code that changes fields or loops is a class or a method with
invariants, proved against a specification function or predicate.

S3 calls, client look-ups, health reads and API-server calls are inputs: each may
succeed or fail, the theorems hold for all their outcomes, and an operation's own
error is traced back to the calls that failed. Conditions are
compared as the program compares them, without their time.

## Where the code does not do what is said of it

The model follows the code.

- A CreateBucket answered with "already owned by you" or "already exists" is a
  failure of that backend for Create (`internal/rgw/bucket.go:31-43`). A bucket that
  exists everywhere is never adopted: `Controller.CreateAndObserve`.
- Create records the first backend only. A Delete before any Update leaves the bucket
  on every other backend where Create succeeded: `Controller.ObserveAfterCreateAndDelete`.
- Create can return a nil error after marking the CR Unavailable, for exactly the
  inputs with two successful creations: `CreateProtocol.NilErrorExactly`.
- Create without any backend pauses the CR whatever its pause label said, a user's own
  value included, and promises that a recovering backend unpauses it; that happens only
  under autopause: `PauseAutomaton.UserValueStays`, `PauseAutomaton.CreatePausedIsUnpaused`.
- ListObjectsV2 is called again with the echoed token, so every pass lists from
  the start; a missing IsTruncated means "go on". The loop still ends against a
  store that always sets IsTruncated.
- A forced deletion of a versioned bucket may leave a delete marker and fail with
  "not empty", for exactly the buckets `PurgeProtocol.NotEmptyExactly` names.
- Tags are sorted by key only, where the comment says key and value; an And filter
  without a tag list is never read back equal. `LifecycleRules.ReadBackExact`
  gives the exact condition.
- Size bounds of a lifecycle filter are dropped. `LifecycleRules.GeneratedMeaning`
  says what this loses, `LifecycleRules.MeaningPreservedUnlessSized` when it matters.
  The newer-versions limit of a noncurrent expiration is dropped as well:
  `LifecycleRules.NoncurrentExpirationKept`.
- setAllBackendLabels removes labels named by the bare backend names, not the
  backend labels; enabled labels of backends no longer listed therefore survive,
  and a backend called `crossplane.io/paused` costs the CR its pause label:
  `Labelling.LabelSurvives`, `PauseAutomaton.UpdateMovesLabel`.
- An error of observing the object-lock configuration is wrapped with the
  versioning client's message (`internal/controller/bucket/objectlockconfiguration.go:145`).
- Autopause is described as pausing every Ready and Synced CR. Where versioning is not
  asked for, a CR some of whose backends were once versioned and others never is not
  paused (`UpdateProtocol.PauseExactly`) before all of its versioned buckets have gone
  missing and been recreated (`UpdateProtocol.VersioningFitsOverRuns`), and one whose
  empty rule list has just removed rules is not paused in that run.
- A failed recreation of a missing bucket records no condition
  (`internal/controller/bucket/update.go:179-184`): `UpdateProtocol.FailedRecreationUnrecorded`.
- The retry of a failed unpause does nothing, the in-memory label being changed already,
  and the failure is not even logged: `PauseAutomaton.UnpauseOne`.
- A failed health check makes the backend Unhealthy only if nothing of its message
  is left once request ids are removed; otherwise its health becomes Unknown:
  `HealthReconcile.Check`.
- The errgroup of Delete keeps only its first error, so whether a non-empty bucket
  re-enables a disabled CR depends on which goroutine failed first:
  `DeleteProtocol.ReenablingUndecided` says for which inputs.
- The fan-in returns at the first unquiet message, and the goroutines that have not
  sent by then stay blocked: `FanIn.BlockedSenders` says for which messages.

## Model

| member | source | states |
|---|---|---|
| CreateProtocol.ReachableInv | internal/controller/bucket/create.go:84-231 | in every reachable state of the goroutines and the receiver, worker positions, counters, reports and errors agree (the protocol's invariant) |
| CreateProtocol.ReadyChannel | internal/controller/bucket/create.go:86-142 | at most one goroutine is on readyChan, it carries a created backend, and no send on errChan ever blocks |
| CreateProtocol.ReadyIsCreated | internal/controller/bucket/create.go:184-220 | the readyChan branch names a backend whose creation succeeded and comes after at most backendCount - 1 other messages |
| CreateProtocol.FallThroughWithoutExpiry | internal/controller/bucket/create.go:184-249 | without context expiry the loop falls through only if every creation failed, and the error returned is one some backend gave |
| CreateProtocol.ReturnedWithoutExpiry | internal/controller/bucket/create.go:148-249 | without expiry, whatever the schedule: Ready if and only if some creation succeeded, no backends if and only if no client exists, fall-through otherwise |
| CreateProtocol.LastReceiveCounts | internal/controller/bucket/create.go:184-249 | the error returned is what the last receive took: the context's, or the oldest report, which is some CreateBucket's |
| CreateProtocol.NilErrorOnFallThrough | internal/controller/bucket/create.go:182-249 | a nil error after marking the CR Unavailable needs an expired context and two successful creations |
| CreateProtocol.NilErrorHappens | internal/controller/bucket/create.go:182-249 | for every input with two successful creations, a run in which exactly that happens and the winner stays blocked |
| CreateProtocol.NilErrorExactly | internal/controller/bucket/create.go:182-249 | some run marks the CR Unavailable and returns nil if and only if two creations succeed |
| CreateProtocol.StuckState | internal/controller/bucket/create.go:112-142 | when nothing can move the receiver has returned, and only the winner can be left blocked, only on fall-through and only after expiry |
| CreateProtocol.AllReported | internal/controller/bucket/create.go:184-221 | once every goroutine has reported and there is no winner, a receiver still waiting has a report to take |
| CreateProtocol.StepRank | internal/controller/bucket/create.go:92-231 | every step of every goroutine uses up a bounded rank |
| CreateProtocol.RunsEnd | internal/controller/bucket/create.go:92-231 | no schedule is longer than the initial rank |
| Controller.RaceToCreate | internal/controller/bucket/create.go:84-231 | under an arbitrary scheduler the race ends; without expiry and with one success it ends Ready, on a created backend |
| BucketCreation.CreateBucket | internal/rgw/bucket.go:31-43 | nil if and only if the bucket was created by this call; "already owned" and "already exists" are returned as errors, but not traced |
| Controller.Create | internal/controller/bucket/create.go:24-250 | a disabled CR is left alone and nothing is called; otherwise the race ends under every schedule, and unless the API server fails the CR and the error are those of its end; without expiry it is Ready if and only if some backend with a client answers "created", and if none does no backend is recorded |
| Controller.AnswersDecide | internal/rgw/bucket.go:31-43 | some creation counts as successful if and only if some backend with a client answers "created" |
| Controller.CreateAndObserve | internal/controller/bucket/observe.go:65-69 | over any number of rounds, a bucket that no backend creates, because it exists already, is never recorded, and every Observe says again that it does not exist |
| Controller.DeleteAfterCreate | internal/controller/bucket/delete.go:53-93 | an error-free Delete before any Update removes the bucket from the one backend Create recorded and from no other |
| Controller.ObserveAfterCreateAndDelete | internal/controller/bucket/create.go:199-212 | Observe then says "does not exist", while a backend still holds the bucket if and only if Create succeeded on another backend than the recorded one |
| Reconcile.WriteCreateResult | internal/controller/bucket/create.go:148-249 | the whole CR after each way the race can end, and what a refused API call leaves; nil if and only if all calls made were accepted |
| ObjectStore.DeleteCurrentHidesKey | internal/rgw/bucket.go:126-133 | deleting a key without a version removes exactly that key from the current ones, versioned or not |
| ObjectPurge.DeleteBucketObjects | internal/rgw/bucket.go:112-153 | it terminates although the token never advances; the result is nil if and only if no call failed, and then no current object is left, with others interfering |
| ObjectPurge.ObjectPass | internal/rgw/bucket.go:118-150 | one pass errs if and only if a call failed; one that asks for another has made the set of current objects strictly smaller |
| ObjectPurge.DeleteObjects | internal/rgw/bucket.go:126-136 | the group of one object page: an error if and only if a call failed; without one none of its keys is current any more |
| ObjectPurge.DeleteVersions | internal/rgw/bucket.go:168-186 | the group of one version page: an error if and only if a call failed; without one none of its entries is left |
| ObjectPurge.DeleteBucketObjectVersions | internal/rgw/bucket.go:155-204 | nothing at or before the cursor remains; it terminates; the result is nil if and only if no call failed, and then no version and no delete marker is left |
| PurgeProtocol.StepInv | internal/rgw/bucket.go:77-204 | in an unversioned bucket every single step of either purge goroutine keeps the invariants of both and adds no entry |
| PurgeProtocol.UnversionedPurgeEmpties | internal/rgw/bucket.go:77-110 | every interleaving of the two purges that ends without error has emptied and deleted the bucket; "not empty" is never the answer |
| PurgeProtocol.ErrorExactly | internal/rgw/bucket.go:77-110 | a finished forced deletion, of whatever bucket under whatever schedule, answers with an error other than "not empty" if and only if some call failed; without a failed call the answer depends on what is left alone, and an unversioned bucket is deleted |
| PurgeProtocol.StepRank | internal/rgw/bucket.go:112-204 | from every reachable state, versioned or not, every step of either goroutine lowers one lexicographic measure |
| PurgeProtocol.RunsEnd | internal/rgw/bucket.go:112-204 | no endless schedule of the two goroutines exists, in versioned buckets either, where each undoes the other's work |
| PurgeProtocol.UnversionedRunsBounded | internal/rgw/bucket.go:112-204 | in an unversioned bucket a run is no longer than a rank of its first state |
| PurgeProtocol.Progress | internal/rgw/bucket.go:77-110 | a purge that has not finished can always go on, in any bucket |
| PurgeProtocol.VersionedPurgeCanFail | internal/rgw/bucket.go:77-110 | for every versioned bucket that holds a version of an object, a run in which no call fails and the bucket is still not empty |
| PurgeProtocol.MarkersReachable | internal/rgw/bucket.go:77-204 | in a versioned bucket of delete markers alone, every interleaving keeps the invariants that rule "not empty" out |
| PurgeProtocol.NotEmptyExactly | internal/rgw/bucket.go:77-110 | a forced deletion can answer "not empty" if and only if the bucket is versioned and holds a version of some object |
| Sorting.SortStable | internal/rgw/lifecycleconfig_helpers.go:133-142 | the sort gives a sorted list and keeps items with equal keys in order |
| Sorting.SortCanonical | internal/rgw/lifecycleconfig_helpers.go:133-142 | sorting is idempotent, and all reorderings sort alike if and only if items with equal keys are equal |
| Strings.LessExactly | internal/rgw/lifecycleconfig_helpers.go:137-139 | the order of keys and names: a string is less if and only if it is a proper prefix or smaller at the first difference |
| LifecycleRules.GenerateLifecycleRules | internal/rgw/lifecycleconfig_helpers.go:27-121 | the loops and field assignments produce, in order and one for one, the rules whose effect and meaning the lemmas below state |
| LifecycleRules.GeneratedEffect | internal/rgw/lifecycleconfig_helpers.go:31-118 | for every rule, object, age and date: the spec asks to abort, expire, remove a marker or move to a class if and only if the generated rule does so, the lost filter constraints hold and the lost limit does not spare the version; a rule that is not Enabled does nothing |
| LifecycleRules.GeneratedConfigEffect | internal/rgw/lifecycleconfig_helpers.go:27-121 | a configuration whose rules lose nothing does exactly what the spec asks for, any other at least that; ids and order are kept |
| LifecycleRules.GeneratedMeaning | internal/rgw/lifecycleconfig_helpers.go:81-116 | for every rule and object: the spec applies if and only if the generated rule applies and the overridden or dropped constraints hold |
| LifecycleRules.MeaningPreservedUnlessSized | apis/provider-ceph/v1alpha1/lifecycleconfiguration_types.go:119-143 | with no legacy prefix and at most one of Prefix, Tag, And, the generated rule applies to the same objects if and only if there is no size bound (or the tags contradict each other) |
| LifecycleRules.NoncurrentExpirationKept | internal/rgw/lifecycleconfig_helpers.go:54-56 | the generated noncurrent expiration is the spec's if and only if that has no limit of newer versions and, if present, a number of days; without days it is dropped whole |
| LifecycleRules.LimitInvisible | apis/provider-ceph/v1alpha1/lifecycleconfiguration_types.go:177-180 | two rules that differ in the limit of newer versions alone are sent alike |
| LifecycleRules.SortFilterTags | internal/rgw/lifecycleconfig_helpers.go:144-151 | rewrites the array in place: And tags sorted, a nil tag list made empty, everything else kept |
| LifecycleRules.ReadBackExact | internal/controller/bucket/lifecycleconfiguration.go:123-145 | whatever order the backend returns And tags in, its rules compare equal to the desired ones if and only if every And filter has a tag list told apart by key |
| LifecycleRules.SortFilterGenerated | internal/rgw/lifecycleconfig_helpers.go:105-151 | a generated rule is in sorted form already, if and only if its And filter has a tag list |
| LifecycleRules.SortFilterIdempotent | internal/rgw/lifecycleconfig_helpers.go:144-151 | sorting the filters twice is sorting them once |
| SharedTable.BucketBackends.Change | internal/controller/bucket/bucket_backends.go:24-127 | a setter changes one field of one entry, creating it if missing, and no other bucket |
| SharedTable.BucketBackends.RemoveBackend | internal/controller/bucket/bucket_backends.go:144-152 | removes one entry and nothing else, also when it is missing |
| BackendTable.ApplyAllEntry | internal/controller/bucket/bucket_backends.go:24-152 | a backend's entry after any writes depends on its own writes alone |
| SharedTable.BucketBackends.GetBackends | internal/controller/bucket/bucket_backends.go:154-177 | exactly the recorded entries among the listed names, whatever the map order |
| SharedTable.BucketBackends.CountBucketsAvailableOnBackends | internal/controller/bucket/bucket_backends.go:180-204 | counts list positions; it reaches the list's length if and only if every listed backend has a client and is Available |
| SharedTable.BucketBackends.IsLifecycleConfigAvailableOnBackends | internal/controller/bucket/bucket_backends.go:208-224 | true if and only if every listed backend with a client has its lifecycle condition Available |
| SharedTable.BucketBackends.IsLifecycleConfigRemovedFromBackends | internal/controller/bucket/bucket_backends.go:228-244 | true if and only if no listed backend with a client has a lifecycle condition |
| SharedTable.BucketBackends.IsVersioningConfigAvailableOnBackends | internal/controller/bucket/bucket_backends.go:248-264 | true if and only if every listed backend with a client has its versioning condition Available |
| SharedTable.BucketBackends.IsVersioningConfigRemovedFromBackends | internal/controller/bucket/bucket_backends.go:268-283 | true if and only if no listed backend with a client has a versioning condition |
| SharedTable.BucketBackends.IsObjectLockConfigAvailableOnBackends | internal/controller/bucket/bucket_backends.go:287-303 | true if and only if every listed backend with a client has its object-lock condition Available |
| Labelling.GetAllBackendLabels | internal/controller/bucket/helpers.go:114-123 | for enabled labels: exactly the prefix-stripped keys whose value is "true" |
| Labelling.SetAllBackendLabels | internal/controller/bucket/helpers.go:126-144 | the labels become what deleting the bare enabled names and then adding missing backend labels gives |
| Labelling.GetBucketProvidersFilterDisabledLabel | internal/controller/bucket/helpers.go:148-166 | the listed backends not disabled by label, in order, from the spec or, if it names none, from the store |
| Labelling.ChosenBecomeEnabled | internal/controller/bucket/helpers.go:114-166 | after setAllBackendLabels every chosen backend is among the enabled ones |
| Labelling.LabelSurvives | internal/controller/bucket/helpers.go:126-144 | a label keeps its value if and only if it is not the bare name of an enabled backend, or is itself the "true" label of a listed one |
| Labelling.SetAllOnlyAdds | internal/controller/bucket/helpers.go:126-166 | if no bare name is a label key, nothing is lost, only missing "true" labels are added, and filtering again chooses the same backends |
| Labelling.SetAllIdempotent | internal/controller/bucket/helpers.go:126-144 | a second call changes nothing if and only if every backend enabled by then, whose bare name is a surviving label, is under that name the "true" label of a listed backend |
| BucketStatus.CountAgainstPositions | internal/controller/bucket/helpers.go:170-204 | the distinct available entries are as many as the list positions if and only if the list has no duplicates and every listed backend is Available |
| BucketStatus.SetBucketStatus | internal/controller/bucket/helpers.go:170-204 | Synced success if and only if no duplicates, all listed Available and the list meets the quota; otherwise the error names exactly the sorted non-Available recorded backends |
| BucketStatus.StatusDetermined | internal/controller/bucket/helpers.go:170-204 | the status does not depend on the order in which the map is walked |
| Pausing.IsPauseRequired | internal/controller/bucket/helpers.go:40-89 | a pause is required if and only if the CR is Ready and Synced, every listed backend has a client and is Available, the conditions fit the spec on every backend (none skipped), pausing is on and the label is empty |
| Pausing.IsBucketPaused | internal/controller/bucket/helpers.go:29-35 | true if and only if the pause label is "true" |
| Pausing.IsBucketAvailableFromStatus | internal/controller/bucket/helpers.go:93-111 | true if and only if every listed backend with a client is recorded Available |
| SubResources.HandleConverges | internal/controller/bucket/versioningconfiguration.go:149-241 | an error-free Handle of any of the five clients brings its part to the wanted value and leaves the others alone |
| SubResources.LifecycleHandle | internal/controller/bucket/lifecycleconfiguration.go:148-202 | the client's effect on the backend, on the table and its error, branch by branch |
| SubResources.VersioningHandle | internal/controller/bucket/versioningconfiguration.go:149-241 | likewise: suspends where nothing is wanted, enables by default under object lock |
| SubResources.LockHandle | internal/controller/bucket/objectlockconfiguration.go:129-191 | likewise, with the default lock configuration |
| SubResources.PolicyHandle | internal/controller/bucket/policy.go:135-175 | likewise for the policy, which records no condition |
| SubResources.AclHandle | internal/controller/bucket/acl.go:94-117 | likewise for the ACL, which records no condition |
| SubResources.DoUpdateOnBackend | internal/controller/bucket/update.go:211-220 | the loop over the clients up to the first error, in backend, table and error |
| SubResources.PassConverges | internal/controller/bucket/update.go:211-220 | one error-free pass brings every enabled part to a value fixed by the spec and by whether the bucket was ever versioned, and touches no other |
| SubResources.HandleErrorExactly | internal/controller/bucket/lifecycleconfiguration.go:148-202 | each of the five Handles fails if and only if it acts and the backend is unhealthy, or the observation failed, or a change was needed and failed; with that very error |
| SubResources.PassErrorExactly | internal/controller/bucket/update.go:211-220 | a pass fails if and only if a call of some enabled client fails, judged by what the backend held before the pass, with the error of the first such client |
| SubResources.CalmPassConverges | internal/controller/bucket/update.go:211-220 | a pass whose calls all succeed is error-free and brings every enabled part to its wanted value |
| SubResources.DefaultsMean | internal/controller/bucket/versioningconfiguration.go:180-225 | unwanted versioning ends Suspended, versioning implied by a lock Enabled, a lock without a configuration enabled without a rule |
| SubResources.PermissionsArePut | internal/controller/bucket/acl.go:66-117 | any one permission field makes the client put all of them, unless the owner's are enforced; otherwise the ACL stays |
| SubResources.SecondPassChangesNothing | internal/controller/bucket/update.go:211-220 | a second error-free pass changes nothing on the backend |
| SubResources.ConvergedQuiet | internal/controller/bucket/versioningconfiguration.go:94-147 | a converged part is observed quiet if and only if it settles, a condition on the spec and on whether the bucket was ever versioned |
| SubResources.QuietAfterPass | internal/controller/bucket/update.go:211-220 | after one error-free pass the observers are all quiet if and only if every enabled part settles |
| SubResources.GeneratedSorted | internal/controller/bucket/lifecycleconfiguration.go:123-145 | the generated rules are in sorted form if and only if every And filter has a tag list |
| SubResources.PassWrites | internal/controller/bucket/update.go:211-220 | the clients never touch the bucket condition; an error-free pass writes only success, on a backend no client found unhealthy |
| SubResources.PassRecords | internal/controller/bucket/lifecycleconfiguration.go:148-202 | the condition an error-free pass leaves for each part, Available or absent, as a function of the spec and of what the backend held |
| SubResources.PassLeaves | internal/controller/bucket/update.go:211-220 | the condition every pass, failed or not, leaves for each part |
| SubResources.HandleFails | internal/controller/bucket/objectlockconfiguration.go:151-188 | a failing Handle changes nothing on the backend; it records a false condition of its own part with that very error, Deleting or Unavailable, if and only if the part has a condition and it got as far as the change |
| FanOut.ReachableInv | internal/controller/bucket/update.go:125-209 | with distinct names each entry always holds what its own goroutine has written so far |
| FanOut.EndsLikeSequential | internal/controller/bucket/update.go:125-209 | for distinct names every interleaving leaves the table of running the backends one after another |
| FanOut.GroupError | internal/controller/bucket/update.go:148-157 | the group's error is nil if and only if every goroutine returned nil, and otherwise one of theirs |
| FanOut.RunAll | internal/controller/bucket/update.go:125-158 | the fan-out ends under an arbitrary scheduler, with the table and error of some run |
| UpdateProtocol.UpdateOnBackend | internal/controller/bucket/update.go:160-209 | the goroutine's statements make exactly the writes and return the error of its script |
| UpdateProtocol.GoroutineErrorExactly | internal/controller/bucket/update.go:163-208 | with a client, the goroutine fails if and only if HeadBucket did, or the recreation was tried and did, or the bucket is there and a call of some enabled client did; with that very error |
| UpdateProtocol.UpdateErrorExactly | internal/controller/bucket/update.go:148-157 | the group's error is nil if and only if nothing failed on any backend with a client, and otherwise the error of such a backend |
| UpdateProtocol.SucceededExactly | internal/controller/bucket/update.go:160-209 | a goroutine succeeds if and only if it had a client, the bucket was there or recreated, no client's call failed and the backend was not unhealthy |
| UpdateProtocol.ConditionExactly | internal/controller/bucket/update.go:139-207 | with distinct names, the bucket condition and every part's condition a finished run leaves, from the replies alone |
| UpdateProtocol.AvailableEntry | internal/controller/bucket/update.go:160-209 | a backend's entry says Available only at the very end of a successful update, with every sub-resource condition absent or Available |
| UpdateProtocol.AvailableAlwaysGood | internal/controller/bucket/update.go:125-209 | with distinct names, in every intermediate state a backend recorded Available was updated successfully and has each sub-resource condition absent or Available |
| UpdateProtocol.UpdateOnAllBackends | internal/controller/bucket/update.go:125-158 | ends under an arbitrary scheduler; with distinct names the table is the sequential one |
| UpdateProtocol.RecordedExactly | internal/controller/bucket/update.go:130-207 | with distinct names, after a finished run a backend has an entry if and only if its client or its bucket's existence could not be had, or the bucket was there or was recreated |
| UpdateProtocol.FailedRecreationUnrecorded | internal/controller/bucket/update.go:179-184 | with distinct names, a backend whose goroutine failed is missing from Status.Backends if and only if it was its recreation that failed; and the update as a whole fails then |
| UpdateProtocol.PauseImpliesReconciled | internal/controller/bucket/helpers.go:40-89 | if the status written from a finished run makes a pause required, every target backend in that run had a client, was found or recreated, was handled without error, converged and was not unhealthy, and the conditions match the spec |
| UpdateProtocol.PauseExactly | docs/AUTOPAUSE.md:8 | after a finished run a pause is required if and only if the names are distinct and meet the quota, every goroutine had a stored client and succeeded, what the backends held fits (in particular all or none were ever versioned where versioning is not asked for), pausing is on and the label is empty |
| UpdateProtocol.SuccessRecorded | internal/controller/bucket/update.go:188-207 | with distinct names, if every goroutine succeeds, the table holds for each backend Available and exactly the sub-resource conditions its own spec and former state call for |
| UpdateProtocol.FitsExactly | internal/controller/bucket/helpers.go:55-81 | the recorded conditions pass the pause checks if and only if the backends' former state fits the spec |
| UpdateProtocol.VersionedStays | internal/controller/bucket/update.go:160-209 | where versioning is not asked for, from one update to the next a bucket stays versioned if and only if it does not go missing in between |
| UpdateProtocol.VersioningFitsOverRuns | internal/controller/bucket/helpers.go:64-75 | over any sequence of updates, versioning fits in the k-th if and only if every bucket versioned at first has gone missing since, or all were versioned and none has |
| Reconcile.WriteUpdateResult | internal/controller/bucket/update.go:83-114 | status from the table, labels from that very status; a failure in between leaves at most the status written; nil if and only if all calls made were accepted |
| Controller.UpdateChosen | internal/controller/bucket/update.go:76-122 | Update ends under every schedule; unless an API call is refused its error is nil if and only if nothing failed on any backend with a client, and else that of such a backend; of the CR only the status and labels its table determines change |
| Controller.Update | internal/controller/bucket/update.go:24-123 | a disabled CR takes the deletion flow with its answer; otherwise the CR and the error are those the finished run determines, nil if and only if nothing failed; a newly set pause label means every target backend was reconciled in this very run |
| Controller.UpdatePauseCause | internal/controller/bucket/update.go:92-114 | the pause label turns "true" only for a required pause, hence only after a fully reconciled run |
| Controller.UpdateThenQuiet | internal/controller/bucket/observe.go:102-117 | after a run that reconciled every backend, the next fan-in of a client whose part settles answers (Updated, nil) in every order of messages |
| Controller.SameTargets | internal/controller/bucket/update.go:92-114 | the label write does not change which backends are chosen, if no enabled backend's bare name is a label key |
| Controller.RecordedInOrder | internal/controller/bucket/update.go:76-122 | after a fully successful run the CR is Ready, Available on the same targets, and paused if autopause asks for it |
| Controller.ObserveAfterUpdate | internal/controller/bucket/observe.go:71-172 | after such a run, every enabled part settling, the next Observe is error-free and says up to date if and only if no backend now misses the bucket |
| DeleteProtocol.ReachableInv | internal/controller/bucket/delete.go:50-93 | table, stores and group error agree with the goroutines' positions in every interleaving, users writing meanwhile |
| DeleteProtocol.ObjectsKept | internal/rgw/bucket.go:65-110 | over every run and whatever fails, a bucket that holds objects is left as it is, as long as no user writes to it |
| DeleteProtocol.StatusAfterDelete | internal/controller/bucket/delete.go:52-115 | Status.Backends holds exactly the enabled backends with a status entry whose deletion failed, each Deleting with its message; it is empty if and only if the group error is nil, and then every attempted bucket is gone |
| DeleteProtocol.GroupErrorExactly | internal/controller/bucket/delete.go:73-93 | the group error is nil if and only if every attempted deletion succeeded |
| DeleteProtocol.SuccessRemovesAttempted | internal/controller/bucket/delete.go:53-93 | a deletion without error removes the bucket from exactly the enabled backends with a status entry |
| DeleteProtocol.StepRank | internal/controller/bucket/delete.go:53-93 | every step but the users' uses up rank, so every schedule ends |
| DeleteProtocol.FirstErrorExactly | internal/controller/bucket/delete.go:73-93 | without users interfering, Delete can see an error first if and only if some goroutine's own calls lead to it: the schedule alone decides |
| DeleteProtocol.ErrorFreeExactly | internal/controller/bucket/delete.go:73-93 | without users interfering the group is error-free if and only if no call of an attempted backend fails and none of their buckets holds an object |
| DeleteProtocol.ResultExactly | internal/rgw/bucket.go:65-110 | a goroutine's result: the error of its first failing call, or "not empty" for a bucket with objects, or nil |
| DeleteProtocol.ReenablingUndecided | internal/controller/bucket/delete.go:117-147 | for one input both answers, "not empty" first and another error first, are possible if and only if one attempted backend holds objects and meets no error, and a call of another attempted one fails |
| DeleteProtocol.OthersUntouched | internal/controller/bucket/delete.go:53-71 | a bucket on a backend that is not enabled or has no status entry stays |
| DeleteProtocol.StoresShrink | internal/controller/bucket/delete.go:50-93 | over any run no backend gains the bucket |
| Reconcile.WriteDeleteResult | internal/controller/bucket/delete.go:95-152 | the status is written in any case; "not empty" gives the deletion up and enables a disabled CR again; nil if and only if all calls made were accepted |
| Controller.Delete | internal/controller/bucket/delete.go:24-153 | Delete, under any schedule, is one deletion step of the runs below; unless an API call is refused it returns nil after full success and for "not empty", and otherwise the group's first error |
| DisabledRuns.HoldersNeverGrow | internal/controller/bucket/update.go:44-49 | over every run while the CR stays disabled the set of backends holding the bucket never grows |
| DisabledRuns.SuccessfulDeletion | internal/controller/bucket/delete.go:92-115 | one deletion without error empties Status.Backends, and every enabled recorded backend has lost its bucket |
| DisabledRuns.ObserveAfterDeletion | internal/controller/bucket/observe.go:41-69 | an error-free Observe after a deletion says "does not exist" if and only if every attempted deletion succeeded and the CR does not stay behind disabled; every attempted bucket is gone then |
| DisabledRuns.SettledForGood | internal/controller/bucket/observe.go:41-63 | from then on no operation changes the spec, the recorded backends or which backends hold the bucket |
| DisabledRuns.ObserveDisabled | internal/controller/bucket/observe.go:41-69 | an error-free Observe of a disabled CR not being deleted says it exists, and up to date if and only if no backend is recorded |
| FanIn.FanInExact | internal/controller/bucket/lifecycleconfiguration.go:40-92 | without expiry (Updated, nil) if and only if every backend is unhealthy or was observed NoAction or Updated, in every message order; with expiry it is still sound |
| FanIn.UnquietAnswer | internal/controller/bucket/lifecycleconfiguration.go:71-91 | any other answer is one unquiet message's own: its observation, or NeedsUpdate with its wrapped error; or NeedsUpdate with the context's error |
| FanIn.FanInOnBackends | internal/controller/bucket/lifecycleconfiguration.go:49-91 | the same said of the backends: unhealthy ones are passed over, whatever else they would tell |
| FanIn.Progress | internal/controller/bucket/policy.go:34-86 | the receive loop is never stuck before it answers |
| FanIn.BlockedSenders | internal/controller/bucket/versioningconfiguration.go:40-92 | without expiry a goroutine can be left blocked for ever if and only if there are two messages or more and one of them is not quiet |
| FanIn.BlockedSendersWithExpiry | internal/controller/bucket/versioningconfiguration.go:40-92 | with expiry also whenever the loop selects on the context and there is a message at all |
| Observing.Observe | internal/controller/bucket/observe.go:21-173 | "does not exist" and "up to date" if and only if the recorded state, pause label, sub-resources and HeadBucket answers say so; an error if and only if no backend is stored, or all targets are disabled, or a client errs first; and which error |
| PauseAutomaton.UnpauseOne | internal/controller/providerconfig/healthcheck/healthcheck_controller.go:215-234 | up to four attempts make one call at most; the stored bucket is unpaused if and only if that call is accepted, and an API error leaves nothing to log |
| PauseAutomaton.ListWithRetry | internal/controller/providerconfig/healthcheck/healthcheck_controller.go:198-212 | the listing succeeds if and only if one of four attempts does, all before it having met an API error |
| PauseAutomaton.UnpauseBuckets | internal/controller/providerconfig/healthcheck/healthcheck_controller.go:181-236 | once listed, exactly the selected CRs under autopause whose first update call is accepted get an empty pause label, and exactly those whose first call meets another error are logged |
| PauseAutomaton.UpdateMovesLabel | internal/controller/bucket/update.go:92-114 | what Update makes of the pause label, including its loss to a backend of that name |
| PauseAutomaton.AutomatonStep | internal/controller/bucket/helpers.go:83-88 | Update moves the label only from absent or empty to "true", a recovery only from "true" to empty, a Create with no backend always to "true", a successful Create not at all |
| PauseAutomaton.OnlyItsOwnRecovery | internal/controller/providerconfig/healthcheck/healthcheck_controller.go:190-230 | the recovery of a backend changes only CRs labelled for it, paused, and under autopause |
| PauseAutomaton.UserValueStays | docs/AUTOPAUSE.md:19-23 | over any run a user's own value, neither empty nor "true", survives if and only if no Create in it finds itself without a backend |
| PauseAutomaton.TargetStaysSelectable | internal/controller/providerconfig/healthcheck/healthcheck_controller.go:190-230 | a labelled target keeps its label over any run, so that whenever the bucket is paused that backend's recovery selects it, and unpauses it if and only if autopause is on |
| PauseAutomaton.AutoPausedIsUnpaused | internal/controller/providerconfig/healthcheck/healthcheck_controller.go:190-230 | a bucket paused by Update is unpaused by the recovery of any one of its target backends, at once and after any later run that leaves it paused |
| PauseAutomaton.CreatePausedIsUnpaused | internal/controller/bucket/create.go:155-160 | a bucket paused by Create for want of a backend is unpaused by a chosen backend's recovery, at once or after any later run, if and only if autopause is on |
| RequestIds.JoinSplit | internal/controller/providerconfig/healthcheck/helpers.go:86-96 | joining undoes splitting at commas |
| RequestIds.SplitJoin | internal/controller/providerconfig/healthcheck/helpers.go:86-96 | splitting undoes joining parts without commas |
| RequestIds.ContainsExactly | internal/controller/providerconfig/healthcheck/helpers.go:90 | a text contains the word if and only if that stands at some position |
| RequestIds.ContainsJoin | internal/controller/providerconfig/healthcheck/helpers.go:86-96 | a word without a comma occurs in the joined text if and only if it occurs in one part: it cannot straddle a comma |
| RequestIds.CleanMessage | internal/controller/providerconfig/healthcheck/helpers.go:86-96 | the result never contains "RequestID", equals the message if and only if that did not, and cleaning twice is cleaning once |
| RequestIds.ErrNoRequestID | internal/controller/providerconfig/healthcheck/helpers.go:86-96 | the loop computes the comma-separated parts without the word, in order |
| HealthReconcile.Check | internal/controller/providerconfig/healthcheck/healthcheck_controller.go:72-134 | the condition stored, with the cleaned message of a failed check; when a check unpauses, when the backend becomes Healthy, and that it becomes Unhealthy only if nothing of the cleaned message is left |

## Left out

- The Kubernetes client, its cache, conflict retries and merge patches: the API server is one stored object with separate status and object patches, and no other writer is assumed during an operation.
- Stale caches and a CR that is removed by somebody else between two calls.
- The NoSuchBucket answer that a forced purge takes for success: nobody else deletes the bucket under it here.
- HTTP, the AWS SDK, STS and AssumeRole: a client look-up and an S3 call either succeed or fail; a failed call changes nothing.
- Duplicated backend names in FanOut.EndsLikeSequential and in what UpdateProtocol says of single table entries: two goroutines then share one entry, which the last to write decides; the pause theorems and the group error do not need distinct names.
- PurgeProtocol.UnversionedPurgeEmpties: is about buckets without versioning; PurgeProtocol.NotEmptyExactly says which others can end non-empty.
- ObjectPurge.DeleteBucketObjects: assumes a store that echoes the token, returns non-empty truncated pages and always sets IsTruncated.
- PauseAutomaton.UserValueStays: assumes that no backend is named like the pause label, and API calls that succeed; UpdateMovesLabel covers the other name.
- Controller.ObserveAfterCreateAndDelete: starts with no bucket on any backend, and with all of Create's goroutines finished.
- UpdateProtocol.VersioningFitsOverRuns: nobody but the reconciler changes the versioning of a bucket, though buckets may go missing.
- DeleteProtocol.ReenablingUndecided: is about runs in which no user writes or removes objects meanwhile.
- Controller.ObserveAfterUpdate: assumes that no enabled backend's bare name is a label key, and clients whose observations meet neither error nor expiry.
- Labelling.GetAllBackendLabels: models the listing of enabled labels; the listing without regard to values, which nothing calls, is not modelled.
- DisabledRuns.SettledForGood: speaks of which backends hold the bucket, not of objects, since users go on writing them.
- Pointer aliasing between the table and the status written from it: entries are values.
- The backend store beyond the names with a client and the health of each; the backend monitor that fills it.
- Nil entries in Status.Backends and tags with a nil key or value.
- The S3 names of unset enumerations ("" here) and how responses are decoded from XML.
- Goroutines of Create that outlive it: their later steps are in the runs, their effect on a later operation is not.
- Time, timeouts and backoff durations: expiry of the context is an event that may happen at any moment.
- Integer widths: replica counts, days and sizes are unbounded.
- Tracing, logging, flags, the webhook, random names, host-base resolution and ACL field copying.
