// The five sub-resource clients: how each observes and handles one backend
// (internal/controller/bucket/{lifecycleconfiguration,acl,policy,
// versioningconfiguration,objectlockconfiguration}.go).

module SubResources {
  import opened Wrappers
  import opened Api
  import opened BackendTable
  import opened SharedTable
  import opened LifecycleRules
  import opened Sets

  datatype Kind = Lifecycle | Acl | Policy | Versions | Lock

  datatype Observation = NoAction | Updated | NeedsUpdate | NeedsDeletion {
    predicate Quiet() { NoAction? || Updated? }
  }

  /** What one backend holds for the bucket.  No rules, no policy and no
      versioning are the empty values; the SDK's enumerations use "" for unset. */
  datatype Config = Config(
    rules: seq<S3Rule>,
    acl: AccessSpec,
    policy: string,
    versioning: Versioning,
    objectLock: Option<ObjectLock>)

  const UNVERSIONED := Versioning("", "")
  const SUSPENDED := Versioning("Suspended", "Disabled")
  const ENABLED := Versioning("Enabled", "Disabled")
  const LOCK_ENABLED := ObjectLock("Enabled", None)

  const ERR_UNHEALTHY: Error := "backend marked as unhealthy in backendstore"
  const ERR_HANDLE_LIFECYCLE := "failed to handle bucket lifecycle configuration"
  const ERR_HANDLE_ACL := "failed to handle bucket acl"
  const ERR_HANDLE_POLICY := "failed to handle bucket policy"
  const ERR_HANDLE_VERSIONING := "failed to handle bucket versioning configuration"
  const ERR_HANDLE_LOCK := "failed to handle object lock configuration"
  const ERR_HANDLE_SUBRESOURCE := "failed to handle bucket subresource"

  function ObserveContext(k: Kind): string {
    match k
    case Lifecycle => "failed to observe bucket lifecycle configuration"
    case Acl => "failed to observe bucket acl"
    case Policy => "failed to observe bucket policy"
    case Versions => "failed to observe bucket versioning configuration"
    case Lock => "failed to observe object lock configuration"
  }

  function Wrap(e: Error, context: string): Error { context + ": " + e }

  /** What the outside answers one Handle: the health read, the error of getting
      the client or the current value, and the error of changing it. */
  datatype Reply = Reply(unhealthy: bool, observeErr: Option<Error>, changeErr: Option<Error>)

  datatype Replies = Replies(lifecycle: Reply, acl: Reply, policy: Reply, versioning: Reply, lock: Reply) {
    function To(k: Kind): Reply {
      match k
      case Lifecycle => lifecycle
      case Acl => acl
      case Policy => policy
      case Versions => versioning
      case Lock => lock
    }
  }

  // --- observing one backend ---------------------------------------------------

  function ObserveLifecycle(spec: Spec, external: seq<S3Rule>): Observation {
    if spec.lifecycle.None? || spec.lifecycleDisabled then
      if external == [] then NoAction else NeedsDeletion
    else if external != [] && spec.lifecycle.value == [] then NeedsDeletion
    else if SortedFilters(external) != Generated(spec.lifecycle.value) then NeedsUpdate
    else Updated
  }

  predicate OwnerEnforced(a: AccessSpec) { a.objectOwnership == Some("BucketOwnerEnforced") }

  predicate NoAccessRequested(a: AccessSpec) {
    && a.acl.None? && a.accessControlPolicy.None? && a.grantFullControl.None? && a.grantWrite.None?
    && a.grantWriteACP.None? && a.grantRead.None? && a.grantReadACP.None?
  }

  function ObserveAcl(spec: Spec): Observation {
    if OwnerEnforced(spec.access) then Updated
    else if NoAccessRequested(spec.access) then Updated
    else NeedsUpdate
  }

  function ObservePolicy(spec: Spec, external: string): Observation {
    if spec.policy == "" then
      if external == "" then Updated else NeedsDeletion
    else if spec.policy != external then NeedsUpdate
    else Updated
  }

  function ObserveVersioning(spec: Spec, external: Versioning): Observation {
    if spec.versioning.None? && !spec.LockEnabled() then
      if external == UNVERSIONED then NoAction else NeedsDeletion
    // With nothing desired the comparison is with a nil pointer and never equal.
    else if Some(external) != spec.versioning then NeedsUpdate
    else Updated
  }

  function ObserveLock(spec: Spec, external: Option<ObjectLock>): Observation {
    var found := if external.Some? then external.value else ObjectLock("", None);
    if Some(found) != spec.objectLock then NeedsUpdate else Updated
  }

  function ObserveBackend(k: Kind, spec: Spec, c: Config): Observation {
    match k
    case Lifecycle => ObserveLifecycle(spec, c.rules)
    case Acl => ObserveAcl(spec)
    case Policy => ObservePolicy(spec, c.policy)
    case Versions => ObserveVersioning(spec, c.versioning)
    case Lock => ObserveLock(spec, c.objectLock)
  }

  // --- handling one backend -----------------------------------------------------

  /** What a Handle leaves: the backend's values, its writes to the table, its error. */
  datatype Outcome = Outcome(config: Config, writes: seq<Write>, err: Option<Error>)

  function AclInput(a: AccessSpec): AccessSpec { a.(objectOwnership := None) }

  function HandleLifecycle(spec: Spec, c: Config, r: Reply): Outcome {
    if r.unhealthy then Outcome(c, [], Some(ERR_UNHEALTHY))
    else if r.observeErr.Some? then Outcome(c, [], Some(Wrap(r.observeErr.value, ERR_HANDLE_LIFECYCLE)))
    else
      match ObserveLifecycle(spec, c.rules)
      case NoAction => Outcome(c, [], None)
      case Updated => Outcome(c, [SetLifecycle(Some(AVAILABLE))], None)
      case NeedsDeletion =>
        if r.changeErr.Some? then
          var e := Wrap(r.changeErr.value, ERR_HANDLE_LIFECYCLE);
          Outcome(c, [SetLifecycle(Some(DELETING.WithMessage(e)))], Some(e))
        else Outcome(c.(rules := []), [SetLifecycle(None)], None)
      case NeedsUpdate =>
        if r.changeErr.Some? then
          var e := Wrap(r.changeErr.value, ERR_HANDLE_LIFECYCLE);
          Outcome(c, [SetLifecycle(Some(UNAVAILABLE.WithMessage(e)))], Some(e))
        else
          // PutBucketLifecycleConfiguration sends the rules of the spec.
          Outcome(c.(rules := if spec.lifecycle.Some? then Generated(spec.lifecycle.value) else []),
                  [SetLifecycle(Some(AVAILABLE))], None)
  }

  function HandleAcl(spec: Spec, c: Config, r: Reply): Outcome {
    if r.unhealthy then Outcome(c, [], Some(ERR_UNHEALTHY))
    else if ObserveAcl(spec).Quiet() then Outcome(c, [], None)
    else if r.changeErr.Some? then Outcome(c, [], Some(Wrap(r.changeErr.value, ERR_HANDLE_ACL)))
    else Outcome(c.(acl := AclInput(spec.access)), [], None)
  }

  function HandlePolicy(spec: Spec, c: Config, r: Reply): Outcome {
    if r.unhealthy then Outcome(c, [], Some(ERR_UNHEALTHY))
    else if r.observeErr.Some? then Outcome(c, [], Some(Wrap(r.observeErr.value, ERR_HANDLE_POLICY)))
    else
      var obs := ObservePolicy(spec, c.policy);
      if obs.Quiet() then Outcome(c, [], None)
      else if r.changeErr.Some? then Outcome(c, [], Some(Wrap(r.changeErr.value, ERR_HANDLE_POLICY)))
      else Outcome(c.(policy := if obs.NeedsDeletion? then "" else spec.policy), [], None)
  }

  function HandleVersioning(spec: Spec, c: Config, r: Reply): Outcome {
    if r.unhealthy then Outcome(c, [], Some(ERR_UNHEALTHY))
    else if r.observeErr.Some? then Outcome(c, [], Some(Wrap(r.observeErr.value, ERR_HANDLE_VERSIONING)))
    else
      var obs := ObserveVersioning(spec, c.versioning);
      if obs.NoAction? then Outcome(c, [], None)
      else if obs.Updated? then Outcome(c, [SetVersioning(Some(AVAILABLE))], None)
      else if r.changeErr.Some? then
        var e := Wrap(r.changeErr.value, ERR_HANDLE_VERSIONING);
        Outcome(c, [SetVersioning(Some(UNAVAILABLE.WithMessage(e)))], Some(e))
      else
        // Versioning cannot be removed, only suspended; a locked bucket without
        // an explicit configuration gets versioning enabled.
        var v := if obs.NeedsDeletion? then SUSPENDED
                 else if spec.versioning.Some? then spec.versioning.value else ENABLED;
        Outcome(c.(versioning := v), [SetVersioning(Some(AVAILABLE))], None)
  }

  function HandleLock(spec: Spec, c: Config, r: Reply): Outcome {
    if !spec.LockEnabled() then Outcome(c, [], None)
    else if r.unhealthy then Outcome(c, [], Some(ERR_UNHEALTHY))
    else if r.observeErr.Some? then Outcome(c, [], Some(Wrap(r.observeErr.value, ERR_HANDLE_VERSIONING)))
    else
      var obs := ObserveLock(spec, c.objectLock);
      if obs.Updated? then Outcome(c, [SetObjectLock(Some(AVAILABLE))], None)
      else if r.changeErr.Some? then
        var e := Wrap(r.changeErr.value, ERR_HANDLE_LOCK);
        Outcome(c, [SetObjectLock(Some(UNAVAILABLE.WithMessage(e)))], Some(e))
      else
        var l := if spec.objectLock.Some? then spec.objectLock.value else LOCK_ENABLED;
        Outcome(c.(objectLock := Some(l)), [SetObjectLock(Some(AVAILABLE))], None)
  }

  function Handle(k: Kind, spec: Spec, c: Config, r: Reply): Outcome {
    match k
    case Lifecycle => HandleLifecycle(spec, c, r)
    case Acl => HandleAcl(spec, c, r)
    case Policy => HandlePolicy(spec, c, r)
    case Versions => HandleVersioning(spec, c, r)
    case Lock => HandleLock(spec, c, r)
  }

  /** Each client in turn, up to the first error. */
  function HandleEach(kinds: seq<Kind>, handle: (Kind, Config) -> Outcome, c: Config): Outcome
    decreases kinds
  {
    if kinds == [] then Outcome(c, [], None)
    else
      var first := handle(kinds[0], c);
      if first.err.Some? then first.(err := Some(Wrap(first.err.value, ERR_HANDLE_SUBRESOURCE)))
      else
        var rest := HandleEach(kinds[1..], handle, first.config);
        rest.(writes := first.writes + rest.writes)
  }

  function Handler(spec: Spec, r: Replies): (Kind, Config) -> Outcome {
    (k: Kind, c: Config) => Handle(k, spec, c, r.To(k))
  }

  /** doUpdateOnBackend. */
  function DoUpdate(kinds: seq<Kind>, spec: Spec, c: Config, r: Replies): Outcome {
    HandleEach(kinds, Handler(spec, r), c)
  }

  // --- convergence ----------------------------------------------------------------

  /** The part of the configuration a client looks after. */
  predicate SamePart(k: Kind, a: Config, b: Config) {
    match k
    case Lifecycle => a.rules == b.rules
    case Acl => a.acl == b.acl
    case Policy => a.policy == b.policy
    case Versions => a.versioning == b.versioning
    case Lock => a.objectLock == b.objectLock
  }

  function WantedRules(spec: Spec): seq<S3Rule> {
    if spec.lifecycle.None? || spec.lifecycleDisabled then [] else Generated(spec.lifecycle.value)
  }

  /** The value a client must leave on the backend: fixed by the spec, except
      that permissions nobody asked for stay, an unlocked bucket keeps its lock
      configuration, and a bucket ever versioned can only be suspended. */
  predicate Converged(k: Kind, spec: Spec, before: Config, after: Config) {
    match k
    case Lifecycle => after.rules == WantedRules(spec) || SortedFilters(after.rules) == WantedRules(spec)
    case Acl =>
      after.acl == if OwnerEnforced(spec.access) || NoAccessRequested(spec.access)
          then before.acl else AclInput(spec.access)
    case Policy => after.policy == spec.policy
    case Versions =>
      after.versioning == (
        if spec.versioning.Some? then spec.versioning.value
        else if spec.LockEnabled() then ENABLED
        else if before.versioning == UNVERSIONED then UNVERSIONED else SUSPENDED)
    case Lock =>
      after.objectLock == (
        if !spec.LockEnabled() then before.objectLock
        else if spec.objectLock.Some? then
          (if before.objectLock.None? && spec.objectLock.value == ObjectLock("", None) then None else spec.objectLock)
        else Some(LOCK_ENABLED))
  }

  lemma HandleConverges(k: Kind, spec: Spec, c: Config, r: Reply)
    requires Handle(k, spec, c, r).err.None?
    ensures Converged(k, spec, c, Handle(k, spec, c, r).config)
    ensures forall j :: j != k ==> SamePart(j, Handle(k, spec, c, r).config, c)
  {
  }

  /** One error-free pass brings every enabled part to its wanted value and
      leaves the parts of disabled clients alone. */
  lemma PassConverges(kinds: seq<Kind>, spec: Spec, c: Config, r: Replies)
    requires NoDuplicates(kinds) && DoUpdate(kinds, spec, c, r).err.None?
    ensures var after := DoUpdate(kinds, spec, c, r).config;
            forall k :: if k in kinds then Converged(k, spec, c, after) else SamePart(k, after, c)
  {
    var after := DoUpdate(kinds, spec, c, r).config;
    forall k ensures if k in kinds then Converged(k, spec, c, after) else SamePart(k, after, c) {
      PartConverges(kinds, spec, c, r, k);
    }
  }

  lemma {:induction false} PartConverges(kinds: seq<Kind>, spec: Spec, c: Config, r: Replies, k: Kind)
    requires NoDuplicates(kinds) && DoUpdate(kinds, spec, c, r).err.None?
    ensures var after := DoUpdate(kinds, spec, c, r).config;
            if k in kinds then Converged(k, spec, c, after) else SamePart(k, after, c)
    decreases kinds
  {
    if kinds != [] {
      var next := Handle(kinds[0], spec, c, r.To(kinds[0])).config;
      HandleConverges(kinds[0], spec, c, r.To(kinds[0]));
      assert kinds[0] !in kinds[1..];
      PartConverges(kinds[1..], spec, next, r, k);
      OtherPart(k, kinds[0], spec, c, next, DoUpdate(kinds, spec, c, r).config);
    }
  }

  /** Convergence looks at one part only, before and after. */
  lemma OtherPart(k: Kind, handled: Kind, spec: Spec, c: Config, next: Config, after: Config)
    ensures k != handled && SamePart(k, next, c) && Converged(k, spec, next, after) ==> Converged(k, spec, c, after)
    ensures SamePart(k, after, next) && Converged(k, spec, c, next) ==> Converged(k, spec, c, after)
    ensures SamePart(k, after, next) && SamePart(k, next, c) ==> SamePart(k, after, c)
  {
  }

  /** Where versioning is neither wanted nor implied by a lock, no pass, whether it
      fails or not, makes a bucket that was ever versioned look as if it never
      was, or the other way round. */
  lemma {:induction false} EverVersionedStays(kinds: seq<Kind>, spec: Spec, c: Config, r: Replies)
    requires spec.versioning.None? && !spec.LockEnabled()
    ensures DoUpdate(kinds, spec, c, r).config.versioning == UNVERSIONED <==> c.versioning == UNVERSIONED
    decreases kinds
  {
    if kinds != [] {
      var first := Handle(kinds[0], spec, c, r.To(kinds[0]));
      assert first.config.versioning == UNVERSIONED <==> c.versioning == UNVERSIONED;
      EverVersionedStays(kinds[1..], spec, first.config, r);
    }
  }

  /** Handling a converged part again leaves it as it is. */
  lemma HandleAgain(k: Kind, spec: Spec, before: Config, c: Config, r: Reply)
    requires Converged(k, spec, before, c) && Handle(k, spec, c, r).err.None?
    ensures Handle(k, spec, c, r).config == c
  {
  }

  lemma {:induction false} PassAgain(kinds: seq<Kind>, spec: Spec, before: Config, c: Config, r: Replies)
    requires forall k :: k in kinds ==> Converged(k, spec, before, c)
    requires DoUpdate(kinds, spec, c, r).err.None?
    ensures DoUpdate(kinds, spec, c, r).config == c
    decreases kinds
  {
    if kinds != [] {
      assert kinds[0] in kinds && forall k :: k in kinds[1..] ==> k in kinds;
      HandleAgain(kinds[0], spec, before, c, r.To(kinds[0]));
      PassAgain(kinds[1..], spec, before, c, r);
    }
  }

  /** A second error-free pass changes nothing on the backend. */
  lemma SecondPassChangesNothing(kinds: seq<Kind>, spec: Spec, c: Config, first: Replies, second: Replies)
    requires NoDuplicates(kinds) && DoUpdate(kinds, spec, c, first).err.None?
    requires DoUpdate(kinds, spec, DoUpdate(kinds, spec, c, first).config, second).err.None?
    ensures DoUpdate(kinds, spec, DoUpdate(kinds, spec, c, first).config, second).config
            == DoUpdate(kinds, spec, c, first).config
  {
    var after := DoUpdate(kinds, spec, c, first).config;
    PassConverges(kinds, spec, c, first);
    PassAgain(kinds, spec, c, after, second);
  }

  // --- when a pass fails -------------------------------------------------------------

  /** The client looks at the backend at all. */
  predicate Acts(k: Kind, spec: Spec) { k.Lock? ==> spec.LockEnabled() }

  /** What goes wrong for one client: the backend is unhealthy, or its current
      value cannot be had (the ACL client does not ask), or a change is needed
      and the call to make it fails. */
  predicate CallsFail(k: Kind, spec: Spec, c: Config, r: Reply) {
    Acts(k, spec) && (r.unhealthy || ObservationFails(k, r) || ChangeFails(k, spec, c, r))
  }

  predicate ObservationFails(k: Kind, r: Reply) { !k.Acl? && r.observeErr.Some? }

  predicate ChangeFails(k: Kind, spec: Spec, c: Config, r: Reply) {
    !ObserveBackend(k, spec, c).Quiet() && r.changeErr.Some?
  }

  function ContextOf(k: Kind): string {
    match k
    case Lifecycle => ERR_HANDLE_LIFECYCLE
    case Acl => ERR_HANDLE_ACL
    case Policy => ERR_HANDLE_POLICY
    case Versions => ERR_HANDLE_VERSIONING
    case Lock => ERR_HANDLE_LOCK
  }

  /** A Handle fails exactly if one of its calls does, and its error is that
      call's; the lock client misnames a failed observation. */
  lemma HandleErrorExactly(k: Kind, spec: Spec, c: Config, r: Reply)
    ensures var err := Handle(k, spec, c, r).err;
            && (err.Some? <==> CallsFail(k, spec, c, r))
            && (CallsFail(k, spec, c, r) ==>
                  if r.unhealthy then err == Some(ERR_UNHEALTHY)
                  else if ObservationFails(k, r)
                  then err == Some(Wrap(r.observeErr.value, if k.Lock? then ERR_HANDLE_VERSIONING else ContextOf(k)))
                  else err == Some(Wrap(r.changeErr.value, ContextOf(k))))
  {
  }

  /** Whether a client fails depends on its own part alone. */
  lemma SameFailure(k: Kind, spec: Spec, a: Config, b: Config, r: Reply)
    requires SamePart(k, a, b)
    ensures CallsFail(k, spec, a, r) <==> CallsFail(k, spec, b, r)
    ensures Handle(k, spec, a, r).err == Handle(k, spec, b, r).err
  {
  }

  /** The first client of the list with a failing call, or the list's length. */
  function FirstFailure(kinds: seq<Kind>, spec: Spec, c: Config, r: Replies): (n: nat)
    ensures n <= |kinds|
    ensures forall j :: 0 <= j < n ==> !CallsFail(kinds[j], spec, c, r.To(kinds[j]))
    ensures n < |kinds| ==> CallsFail(kinds[n], spec, c, r.To(kinds[n]))
    decreases kinds
  {
    if kinds == [] || CallsFail(kinds[0], spec, c, r.To(kinds[0])) then 0 else 1 + FirstFailure(kinds[1..], spec, c, r)
  }

  /** Said of what the backend held before the pass: the pass fails exactly if a
      call of some enabled client fails, with the error of the first such client. */
  lemma {:induction false} PassErrorExactly(kinds: seq<Kind>, spec: Spec, c: Config, r: Replies)
    requires NoDuplicates(kinds)
    ensures var n := FirstFailure(kinds, spec, c, r);
            DoUpdate(kinds, spec, c, r).err ==
            if n == |kinds| then None
            else Some(Wrap(Handle(kinds[n], spec, c, r.To(kinds[n])).err.value, ERR_HANDLE_SUBRESOURCE))
    decreases kinds
  {
    if kinds != [] {
      var k := kinds[0];
      HandleErrorExactly(k, spec, c, r.To(k));
      var first := Handle(k, spec, c, r.To(k));
      if first.err.None? {
        HandleConverges(k, spec, c, r.To(k));
        PassErrorExactly(kinds[1..], spec, first.config, r);
        forall j | 0 < j < |kinds|
          ensures CallsFail(kinds[j], spec, first.config, r.To(kinds[j])) <==>
                  CallsFail(kinds[j], spec, c, r.To(kinds[j]))
          ensures Handle(kinds[j], spec, first.config, r.To(kinds[j])).err ==
                  Handle(kinds[j], spec, c, r.To(kinds[j])).err
        {
          SameFailure(kinds[j], spec, first.config, c, r.To(kinds[j]));
        }
        SameFirst(kinds[1..], spec, first.config, c, r);
      }
    }
  }

  lemma SameFirst(kinds: seq<Kind>, spec: Spec, a: Config, b: Config, r: Replies)
    requires forall k :: k in kinds ==> (CallsFail(k, spec, a, r.To(k)) <==> CallsFail(k, spec, b, r.To(k)))
    ensures FirstFailure(kinds, spec, a, r) == FirstFailure(kinds, spec, b, r)
  {
    var m, n := FirstFailure(kinds, spec, a, r), FirstFailure(kinds, spec, b, r);
    assert m < |kinds| ==> kinds[m] in kinds;
    assert n < |kinds| ==> kinds[n] in kinds;
  }

  /** A pass in which every backend call succeeds is error-free, so it brings
      every enabled part to its wanted value. */
  lemma CalmPassConverges(kinds: seq<Kind>, spec: Spec, c: Config, r: Replies)
    requires NoDuplicates(kinds)
    requires forall k :: k in kinds ==> !r.To(k).unhealthy && r.To(k).observeErr.None? && r.To(k).changeErr.None?
    ensures DoUpdate(kinds, spec, c, r).err.None?
    ensures forall k :: k in kinds ==> Converged(k, spec, c, DoUpdate(kinds, spec, c, r).config)
  {
    assert forall j :: 0 <= j < |kinds| ==> kinds[j] in kinds;
    PassErrorExactly(kinds, spec, c, r);
    PassConverges(kinds, spec, c, r);
  }

  // --- what the wanted values say ---------------------------------------------------

  /** Where versioning is no longer wanted the bucket ends suspended, where a lock
      implies it, enabled; a lock without a configuration of its own is enabled
      without a rule. */
  lemma DefaultsMean(spec: Spec, before: Config, after: Config)
    requires Converged(Versions, spec, before, after) && Converged(Lock, spec, before, after)
    ensures spec.versioning.None? && !spec.LockEnabled() && before.versioning.status != "" ==>
              after.versioning.status == "Suspended" && after.versioning.mfaDelete == "Disabled"
    ensures spec.versioning.None? && spec.LockEnabled() ==>
              after.versioning.status == "Enabled" && after.versioning.mfaDelete == "Disabled"
    ensures spec.objectLock.None? && spec.LockEnabled() ==>
              after.objectLock.Some? && after.objectLock.value.enabled == "Enabled" && after.objectLock.value.rule.None?
  {
  }

  /** Any one permission of the spec makes the ACL client put all of them, unless
      the owner's are enforced. */
  lemma PermissionsArePut(spec: Spec, c: Config, r: Reply)
    requires HandleAcl(spec, c, r).err.None?
    ensures var a, after := spec.access, HandleAcl(spec, c, r).config.acl;
            if a.objectOwnership != Some("BucketOwnerEnforced")
               && (a.acl.Some? || a.accessControlPolicy.Some? || a.grantFullControl.Some? || a.grantWrite.Some?
                   || a.grantWriteACP.Some? || a.grantRead.Some? || a.grantReadACP.Some?)
            then && after.acl == a.acl && after.accessControlPolicy == a.accessControlPolicy
                 && after.grantFullControl == a.grantFullControl && after.grantWrite == a.grantWrite
                 && after.grantWriteACP == a.grantWriteACP && after.grantRead == a.grantRead
                 && after.grantReadACP == a.grantReadACP && after.objectOwnership.None?
            else after == c.acl
  {
  }

  // --- when the observers are quiet afterwards -----------------------------------

  /** What the fan-in reads from a healthy backend: an unlocked bucket's lock
      client does not look at the backend at all. */
  predicate QuietOn(k: Kind, spec: Spec, c: Config) {
    (k.Lock? && !spec.LockEnabled()) || ObserveBackend(k, spec, c).Quiet()
  }

  predicate AndTagsPresent(local: seq<SpecRule>) {
    forall i :: 0 <= i < |local| ==>
      (local[i].filter.Some? && local[i].filter.value.and.Some? ==> local[i].filter.value.and.value.tags.Some?)
  }

  /** Sorting the generated rules again changes them only where an And filter
      has no tag list: its nil becomes an empty list. */
  lemma GeneratedSorted(local: seq<SpecRule>)
    ensures SortedFilters(Generated(local)) == Generated(local) <==> AndTagsPresent(local)
  {
    forall i | 0 <= i < |local|
      ensures SortFilter(GenerateRule(local[i])) == GenerateRule(local[i]) <==>
              (local[i].filter.Some? && local[i].filter.value.and.Some? ==> local[i].filter.value.and.value.tags.Some?)
    {
      SortFilterGenerated(local[i]);
    }
    if SortedFilters(Generated(local)) == Generated(local) {
      forall i | 0 <= i < |local| ensures SortFilter(GenerateRule(local[i])) == GenerateRule(local[i]) {
        assert SortedFilters(Generated(local))[i] == Generated(local)[i];
      }
    }
  }

  lemma SortedFiltersIdempotent(rules: seq<S3Rule>)
    ensures SortedFilters(SortedFilters(rules)) == SortedFilters(rules)
  {
    forall i | 0 <= i < |rules| ensures SortFilter(SortFilter(rules[i])) == SortFilter(rules[i]) {
      SortFilterIdempotent(rules[i]);
    }
  }

  /** Which parts settle for good, as a condition on the spec and on whether the
      bucket was ever versioned. */
  predicate Settles(k: Kind, spec: Spec, before: Config) {
    match k
    case Lifecycle => spec.lifecycle.None? || spec.lifecycleDisabled || AndTagsPresent(spec.lifecycle.value)
    case Acl => OwnerEnforced(spec.access) || NoAccessRequested(spec.access)
    case Policy => true
    case Versions => spec.versioning.Some? || (!spec.LockEnabled() && before.versioning == UNVERSIONED)
    case Lock => !spec.LockEnabled() || spec.objectLock.Some?
  }

  lemma ConvergedQuiet(k: Kind, spec: Spec, before: Config, after: Config)
    requires Converged(k, spec, before, after)
    ensures QuietOn(k, spec, after) <==> Settles(k, spec, before)
  {
    if k.Lifecycle? && spec.lifecycle.Some? {
      var wanted := Generated(spec.lifecycle.value);
      GeneratedSorted(spec.lifecycle.value);
      SortedFiltersIdempotent(after.rules);
    }
  }

  /** After one error-free pass the observers of the enabled clients are all
      quiet exactly when every enabled part settles. */
  lemma QuietAfterPass(kinds: seq<Kind>, spec: Spec, c: Config, r: Replies)
    requires NoDuplicates(kinds) && DoUpdate(kinds, spec, c, r).err.None?
    ensures (forall k :: k in kinds ==> QuietOn(k, spec, DoUpdate(kinds, spec, c, r).config)) <==>
            (forall k :: k in kinds ==> Settles(k, spec, c))
  {
    var after := DoUpdate(kinds, spec, c, r).config;
    PassConverges(kinds, spec, c, r);
    forall k | k in kinds ensures QuietOn(k, spec, after) <==> Settles(k, spec, c) {
      ConvergedQuiet(k, spec, c, after);
    }
  }

  // --- what a pass writes to the table --------------------------------------------

  /** A write after which the sub-resource condition is absent or Available. */
  predicate GoodWrite(w: Write) {
    match w
    case SetLifecycle(c) => c.None? || c == Some(AVAILABLE)
    case SetVersioning(c) => c == Some(AVAILABLE)
    case SetObjectLock(c) => c == Some(AVAILABLE)
    case _ => false
  }

  lemma HandleWrites(k: Kind, spec: Spec, c: Config, r: Reply)
    ensures forall w :: w in Handle(k, spec, c, r).writes ==> !w.SetBucket? && !w.DeleteBackend?
    ensures Handle(k, spec, c, r).err.None? ==> forall w :: w in Handle(k, spec, c, r).writes ==> GoodWrite(w)
    ensures Handle(k, spec, c, r).err.None? ==> !(r.unhealthy && (k.Lock? ==> spec.LockEnabled()))
  {
  }

  /** The clients never touch the bucket condition, and an error-free pass
      writes nothing but success. */
  lemma {:induction false} PassWrites(kinds: seq<Kind>, spec: Spec, c: Config, r: Replies)
    ensures forall w :: w in DoUpdate(kinds, spec, c, r).writes ==> !w.SetBucket? && !w.DeleteBackend?
    ensures DoUpdate(kinds, spec, c, r).err.None? ==>
              forall w :: w in DoUpdate(kinds, spec, c, r).writes ==> GoodWrite(w)
    ensures DoUpdate(kinds, spec, c, r).err.None? ==>
              forall k :: k in kinds ==> !(r.To(k).unhealthy && (k.Lock? ==> spec.LockEnabled()))
    decreases kinds
  {
    if kinds != [] {
      HandleWrites(kinds[0], spec, c, r.To(kinds[0]));
      PassWrites(kinds[1..], spec, Handle(kinds[0], spec, c, r.To(kinds[0])).config, r);
    }
  }

  /** The condition kept for a part; the ACL and policy clients keep none. */
  function FieldOf(info: BackendInfo, k: Kind): Option<Condition> {
    match k
    case Lifecycle => info.lifecycle
    case Versions => info.versioning
    case Lock => info.objectLock
    case _ => None
  }

  /** The condition an error-free Handle leaves where none was recorded: Available
      or absent, by the spec and by what the backend held. */
  function Expected(k: Kind, spec: Spec, c: Config): Option<Condition> {
    match k
    case Lifecycle =>
      if spec.lifecycle.None? || spec.lifecycleDisabled || (spec.lifecycle.value == [] && c.rules != []) then None
      else Some(AVAILABLE)
    case Versions =>
      if spec.versioning.None? && !spec.LockEnabled() && c.versioning == UNVERSIONED then None else Some(AVAILABLE)
    case Lock => if spec.LockEnabled() then Some(AVAILABLE) else None
    case _ => None
  }

  function InfoIn(entry: Option<BackendInfo>): BackendInfo {
    if entry.Some? then entry.value else EMPTY_INFO
  }

  lemma HandleRecords(k: Kind, spec: Spec, c: Config, r: Reply, entry: Option<BackendInfo>)
    requires Handle(k, spec, c, r).err.None? && FieldOf(InfoIn(entry), k).None?
    ensures var after := InfoIn(Replay(entry, Handle(k, spec, c, r).writes));
            && after.bucket == InfoIn(entry).bucket
            && forall j :: FieldOf(after, j) == if j == k then Expected(k, spec, c) else FieldOf(InfoIn(entry), j)
  {
    var ws := Handle(k, spec, c, r).writes;
    assert |ws| <= 1;
    if |ws| == 1 { assert ws[1..] == []; }
  }

  /** What an error-free pass leaves in the backend's entry, part by part. */
  lemma {:induction false} PassRecords(kinds: seq<Kind>, spec: Spec, c: Config, r: Replies, entry: Option<BackendInfo>)
    requires NoDuplicates(kinds) && DoUpdate(kinds, spec, c, r).err.None?
    requires forall k :: k in kinds ==> FieldOf(InfoIn(entry), k).None?
    ensures var after := InfoIn(Replay(entry, DoUpdate(kinds, spec, c, r).writes));
            && after.bucket == InfoIn(entry).bucket
            && forall k :: FieldOf(after, k) == if k in kinds then Expected(k, spec, c) else FieldOf(InfoIn(entry), k)
    decreases kinds
  {
    if kinds != [] {
      var k := kinds[0];
      var first := Handle(k, spec, c, r.To(k));
      HandleRecords(k, spec, c, r.To(k), entry);
      HandleConverges(k, spec, c, r.To(k));
      assert k !in kinds[1..];
      PassRecords(kinds[1..], spec, first.config, r, Replay(entry, first.writes));
      ReplayConcat(entry, first.writes, DoUpdate(kinds[1..], spec, first.config, r).writes);
      forall j | j != k ensures Expected(j, spec, first.config) == Expected(j, spec, c) {
        SameExpected(j, spec, first.config, c);
      }
    }
  }

  lemma SameExpected(k: Kind, spec: Spec, a: Config, b: Config)
    requires SamePart(k, a, b)
    ensures Expected(k, spec, a) == Expected(k, spec, b)
  {
  }

  /** A Handle that fails has changed nothing on the backend.  If it got as far as
      the change, and its part has a condition, it records that very error. */
  lemma HandleFails(k: Kind, spec: Spec, c: Config, r: Reply, entry: Option<BackendInfo>)
    requires Handle(k, spec, c, r).err.Some?
    ensures var o := Handle(k, spec, c, r); var after := InfoIn(Replay(entry, o.writes));
            && o.config == c && after.bucket == InfoIn(entry).bucket
            && (o.writes != [] <==>
                  (k.Lifecycle? || k.Versions? || k.Lock?) && !r.unhealthy && !ObservationFails(k, r))
            && (o.writes != [] ==>
                  && r.changeErr.Some?
                  && FieldOf(after, k).Some?
                  && var recorded := FieldOf(after, k).value;
                  && recorded.ctype.Ready? && recorded.status.IsFalse? && recorded.message == o.err.value
                  && recorded.reason ==
                     (if k.Lifecycle? && ObserveLifecycle(spec, c.rules).NeedsDeletion? then DeletingReason
                      else UnavailableReason))
            && forall j :: j != k ==> FieldOf(after, j) == FieldOf(InfoIn(entry), j)
  {
    var ws := Handle(k, spec, c, r).writes;
    assert |ws| <= 1;
    if |ws| == 1 { assert ws[1..] == []; }
  }

  /** The condition one Handle leaves for its part, where none was recorded: what an
      error-free one leaves, or, if the change was tried and failed, that error. */
  function LeftFor(k: Kind, spec: Spec, c: Config, r: Reply): Option<Condition> {
    if !CallsFail(k, spec, c, r) then Expected(k, spec, c)
    else if k.Acl? || k.Policy? || r.unhealthy || ObservationFails(k, r) then None
    else
      var failed := if k.Lifecycle? && ObserveLifecycle(spec, c.rules).NeedsDeletion? then DELETING else UNAVAILABLE;
      Some(failed.WithMessage(Wrap(r.changeErr.value, ContextOf(k))))
  }

  lemma HandleLeaves(k: Kind, spec: Spec, c: Config, r: Reply, entry: Option<BackendInfo>)
    requires FieldOf(InfoIn(entry), k).None?
    ensures var after := InfoIn(Replay(entry, Handle(k, spec, c, r).writes));
            && after.bucket == InfoIn(entry).bucket
            && forall j :: FieldOf(after, j) == if j == k then LeftFor(k, spec, c, r) else FieldOf(InfoIn(entry), j)
  {
    HandleErrorExactly(k, spec, c, r);
    if Handle(k, spec, c, r).err.None? {
      HandleRecords(k, spec, c, r, entry);
    } else {
      HandleFails(k, spec, c, r, entry);
      var ws := Handle(k, spec, c, r).writes;
      if ws != [] { assert ws[1..] == []; }
    }
  }

  /** The condition a whole pass leaves for a part: what its own Handle leaves, if
      the pass got that far. */
  function LeftByPass(k: Kind, kinds: seq<Kind>, spec: Spec, c: Config, r: Replies): Option<Condition> {
    var n := FirstFailure(kinds, spec, c, r);
    if k in kinds[..n] || (n < |kinds| && k == kinds[n]) then LeftFor(k, spec, c, r.To(k)) else None
  }

  /** Every pass, failed or not, part by part. */
  lemma {:induction false} PassLeaves(kinds: seq<Kind>, spec: Spec, c: Config, r: Replies, entry: Option<BackendInfo>)
    requires NoDuplicates(kinds)
    requires forall k :: k in kinds ==> FieldOf(InfoIn(entry), k).None?
    ensures var after := InfoIn(Replay(entry, DoUpdate(kinds, spec, c, r).writes));
            && after.bucket == InfoIn(entry).bucket
            && forall k :: FieldOf(after, k) ==
                 if k in kinds then LeftByPass(k, kinds, spec, c, r) else FieldOf(InfoIn(entry), k)
    decreases kinds
  {
    if kinds != [] {
      var k := kinds[0];
      var first := Handle(k, spec, c, r.To(k));
      HandleErrorExactly(k, spec, c, r.To(k));
      HandleLeaves(k, spec, c, r.To(k), entry);
      assert k !in kinds[1..];
      if first.err.None? {
        HandleConverges(k, spec, c, r.To(k));
        PassLeaves(kinds[1..], spec, first.config, r, Replay(entry, first.writes));
        ReplayConcat(entry, first.writes, DoUpdate(kinds[1..], spec, first.config, r).writes);
        forall j | j in kinds ensures LeftByPass(j, kinds, spec, c, r) ==
                       if j == k then LeftFor(k, spec, c, r.To(k)) else LeftByPass(j, kinds[1..], spec, first.config, r)
        {
          LeftByRest(j, kinds, spec, c, first.config, r);
        }
      }
    }
  }

  lemma LeftByRest(j: Kind, kinds: seq<Kind>, spec: Spec, c: Config, next: Config, r: Replies)
    requires NoDuplicates(kinds) && j in kinds && !CallsFail(kinds[0], spec, c, r.To(kinds[0]))
    requires forall k :: k != kinds[0] ==> SamePart(k, next, c)
    ensures LeftByPass(j, kinds, spec, c, r) ==
            if j == kinds[0] then LeftFor(j, spec, c, r.To(j)) else LeftByPass(j, kinds[1..], spec, next, r)
  {
    forall k | k != kinds[0]
      ensures CallsFail(k, spec, next, r.To(k)) <==> CallsFail(k, spec, c, r.To(k))
      ensures LeftFor(k, spec, next, r.To(k)) == LeftFor(k, spec, c, r.To(k))
    {
      SameFailure(k, spec, next, c, r.To(k));
      SameExpected(k, spec, next, c);
    }
    assert kinds[0] !in kinds[1..];
    SameFirst(kinds[1..], spec, next, c, r);
    var n := FirstFailure(kinds[1..], spec, c, r);
    assert FirstFailure(kinds, spec, c, r) == 1 + n;
    assert kinds[..1 + n] == [kinds[0]] + kinds[1..][..n];
  }

  // --- the Handle methods -----------------------------------------------------------

  /** The bucket's sub-resources on one backend, as its API changes them. */
  class BackendBucket {
    var config: Config

    constructor (c: Config)
      ensures config == c
    {
      config := c;
    }
  }

  twostate predicate Performed(be: BackendBucket, bb: BucketBackends, name: string, backendName: string, o: Outcome)
    reads be, bb
  {
    && be.config == o.config
    && bb.Of(name) == ApplyAll(old(bb.Of(name)), backendName, o.writes)
    && forall b :: b != name ==> bb.Of(b) == old(bb.Of(b))
  }

  method LifecycleHandle(spec: Spec, name: string, backendName: string, be: BackendBucket, bb: BucketBackends, r: Reply)
    returns (err: Option<Error>)
    modifies be, bb
    ensures Performed(be, bb, name, backendName, HandleLifecycle(spec, old(be.config), r))
    ensures err == HandleLifecycle(spec, old(be.config), r).err
  {
    if r.unhealthy { return Some(ERR_UNHEALTHY); }
    if r.observeErr.Some? { return Some(Wrap(r.observeErr.value, ERR_HANDLE_LIFECYCLE)); }
    match ObserveLifecycle(spec, be.config.rules) {
      case NoAction =>
      case Updated =>
        bb.SetLifecycleConfigCondition(name, backendName, Some(AVAILABLE));
      case NeedsDeletion =>
        if r.changeErr.Some? {
          var e := Wrap(r.changeErr.value, ERR_HANDLE_LIFECYCLE);
          bb.SetLifecycleConfigCondition(name, backendName, Some(DELETING.WithMessage(e)));
          return Some(e);
        }
        be.config := be.config.(rules := []);
        bb.SetLifecycleConfigCondition(name, backendName, None);
      case NeedsUpdate =>
        if r.changeErr.Some? {
          var e := Wrap(r.changeErr.value, ERR_HANDLE_LIFECYCLE);
          bb.SetLifecycleConfigCondition(name, backendName, Some(UNAVAILABLE.WithMessage(e)));
          return Some(e);
        }
        var rules := GenerateLifecycleRules(if spec.lifecycle.Some? then spec.lifecycle.value else []);
        be.config := be.config.(rules := rules);
        bb.SetLifecycleConfigCondition(name, backendName, Some(AVAILABLE));
    }
    err := None;
  }

  method AclHandle(spec: Spec, name: string, backendName: string, be: BackendBucket, bb: BucketBackends, r: Reply)
    returns (err: Option<Error>)
    modifies be, bb
    ensures Performed(be, bb, name, backendName, HandleAcl(spec, old(be.config), r))
    ensures err == HandleAcl(spec, old(be.config), r).err
  {
    if r.unhealthy { return Some(ERR_UNHEALTHY); }
    if ObserveAcl(spec).Quiet() { return None; }
    if r.changeErr.Some? { return Some(Wrap(r.changeErr.value, ERR_HANDLE_ACL)); }
    be.config := be.config.(acl := AclInput(spec.access));
    err := None;
  }

  method PolicyHandle(spec: Spec, name: string, backendName: string, be: BackendBucket, bb: BucketBackends, r: Reply)
    returns (err: Option<Error>)
    modifies be, bb
    ensures Performed(be, bb, name, backendName, HandlePolicy(spec, old(be.config), r))
    ensures err == HandlePolicy(spec, old(be.config), r).err
  {
    if r.unhealthy { return Some(ERR_UNHEALTHY); }
    if r.observeErr.Some? { return Some(Wrap(r.observeErr.value, ERR_HANDLE_POLICY)); }
    match ObservePolicy(spec, be.config.policy) {
      case NoAction =>
      case Updated =>
      case NeedsDeletion =>
        if r.changeErr.Some? { return Some(Wrap(r.changeErr.value, ERR_HANDLE_POLICY)); }
        be.config := be.config.(policy := "");
      case NeedsUpdate =>
        if r.changeErr.Some? { return Some(Wrap(r.changeErr.value, ERR_HANDLE_POLICY)); }
        be.config := be.config.(policy := spec.policy);
    }
    err := None;
  }

  method VersioningHandle(
    spec: Spec, name: string, backendName: string, be: BackendBucket, bb: BucketBackends, r: Reply)
    returns (err: Option<Error>)
    modifies be, bb
    ensures Performed(be, bb, name, backendName, HandleVersioning(spec, old(be.config), r))
    ensures err == HandleVersioning(spec, old(be.config), r).err
  {
    if r.unhealthy { return Some(ERR_UNHEALTHY); }
    if r.observeErr.Some? { return Some(Wrap(r.observeErr.value, ERR_HANDLE_VERSIONING)); }
    var wanted := spec.versioning;
    match ObserveVersioning(spec, be.config.versioning) {
      case NoAction => return None;
      case Updated =>
        bb.SetVersioningConfigCondition(name, backendName, Some(AVAILABLE));
        return None;
      case NeedsDeletion =>
        wanted := Some(SUSPENDED);
      case NeedsUpdate =>
        if spec.versioning.None? && spec.LockEnabled() { wanted := Some(ENABLED); }
    }
    if r.changeErr.Some? {
      var e := Wrap(r.changeErr.value, ERR_HANDLE_VERSIONING);
      bb.SetVersioningConfigCondition(name, backendName, Some(UNAVAILABLE.WithMessage(e)));
      return Some(e);
    }
    be.config := be.config.(versioning := wanted.value);
    bb.SetVersioningConfigCondition(name, backendName, Some(AVAILABLE));
    err := None;
  }

  method LockHandle(spec: Spec, name: string, backendName: string, be: BackendBucket, bb: BucketBackends, r: Reply)
    returns (err: Option<Error>)
    modifies be, bb
    ensures Performed(be, bb, name, backendName, HandleLock(spec, old(be.config), r))
    ensures err == HandleLock(spec, old(be.config), r).err
  {
    if !spec.LockEnabled() { return None; }
    if r.unhealthy { return Some(ERR_UNHEALTHY); }
    if r.observeErr.Some? { return Some(Wrap(r.observeErr.value, ERR_HANDLE_VERSIONING)); }
    match ObserveLock(spec, be.config.objectLock) {
      case Updated =>
        bb.SetObjectLockConfigCondition(name, backendName, Some(AVAILABLE));
      case NeedsUpdate =>
        var wanted := LOCK_ENABLED;
        if spec.objectLock.Some? { wanted := spec.objectLock.value; }
        if r.changeErr.Some? {
          var e := Wrap(r.changeErr.value, ERR_HANDLE_LOCK);
          bb.SetObjectLockConfigCondition(name, backendName, Some(UNAVAILABLE.WithMessage(e)));
          return Some(e);
        }
        be.config := be.config.(objectLock := Some(wanted));
        bb.SetObjectLockConfigCondition(name, backendName, Some(AVAILABLE));
    }
    err := None;
  }

  method HandleOne(
    k: Kind, spec: Spec, name: string, backendName: string, be: BackendBucket, bb: BucketBackends, r: Reply)
    returns (err: Option<Error>)
    modifies be, bb
    ensures Performed(be, bb, name, backendName, Handle(k, spec, old(be.config), r))
    ensures err == Handle(k, spec, old(be.config), r).err
  {
    match k {
      case Lifecycle => err := LifecycleHandle(spec, name, backendName, be, bb, r);
      case Acl => err := AclHandle(spec, name, backendName, be, bb, r);
      case Policy => err := PolicyHandle(spec, name, backendName, be, bb, r);
      case Versions => err := VersioningHandle(spec, name, backendName, be, bb, r);
      case Lock => err := LockHandle(spec, name, backendName, be, bb, r);
    }
  }

  /** The loop over the sub-resource clients, up to the first error. */
  method DoUpdateOnBackend(kinds: seq<Kind>, spec: Spec, name: string, backendName: string, be: BackendBucket,
                           bb: BucketBackends, r: Replies)
    returns (err: Option<Error>)
    modifies be, bb
    ensures Performed(be, bb, name, backendName, DoUpdate(kinds, spec, old(be.config), r))
    ensures err == DoUpdate(kinds, spec, old(be.config), r).err
  {
    ghost var handle := Handler(spec, r);
    assert Performed(be, bb, name, backendName, Outcome(be.config, [], None));
    for i := 0 to |kinds|
      invariant HandleEach(kinds[..i], handle, old(be.config)).err.None?
      invariant Performed(be, bb, name, backendName, HandleEach(kinds[..i], handle, old(be.config)))
    {
      ghost var done := HandleEach(kinds[..i], handle, old(be.config));
      ghost var next := handle(kinds[i], done.config);
      HandleOneMore(kinds, i, handle, old(be.config));
      ApplyAllConcat(old(bb.Of(name)), backendName, done.writes, next.writes);

      err := HandleOne(kinds[i], spec, name, backendName, be, bb, r.To(kinds[i]));
      if err.Some? { return Some(Wrap(err.value, ERR_HANDLE_SUBRESOURCE)); }
    }
    assert kinds[..|kinds|] == kinds;
    err := None;
  }

  lemma HandleOneMore(kinds: seq<Kind>, i: nat, handle: (Kind, Config) -> Outcome, c: Config)
    requires i < |kinds| && HandleEach(kinds[..i], handle, c).err.None?
    ensures var done := HandleEach(kinds[..i], handle, c); var next := handle(kinds[i], done.config);
            && HandleEach(kinds[..i + 1], handle, c) ==
               Outcome(next.config, done.writes + next.writes,
                       if next.err.Some? then Some(Wrap(next.err.value, ERR_HANDLE_SUBRESOURCE)) else None)
            && (next.err.Some? ==> HandleEach(kinds, handle, c) == HandleEach(kinds[..i + 1], handle, c))
  {
    HandleEachAppend(kinds[..i], kinds[i], handle, c);
    assert kinds[..i + 1] == kinds[..i] + [kinds[i]];
    assert kinds == kinds[..i + 1] + kinds[i + 1..];
    if HandleEach(kinds[..i + 1], handle, c).err.Some? {
      ErrorStops(kinds[..i + 1], kinds[i + 1..], handle, c);
    }
  }

  lemma {:induction false} HandleEachAppend(kinds: seq<Kind>, k: Kind, handle: (Kind, Config) -> Outcome, c: Config)
    requires HandleEach(kinds, handle, c).err.None?
    ensures var done := HandleEach(kinds, handle, c); var next := handle(k, done.config);
            HandleEach(kinds + [k], handle, c) ==
            Outcome(next.config, done.writes + next.writes,
                    if next.err.Some? then Some(Wrap(next.err.value, ERR_HANDLE_SUBRESOURCE)) else None)
    decreases kinds
  {
    if kinds == [] {
      assert kinds + [k] == [k];
    } else {
      assert (kinds + [k])[1..] == kinds[1..] + [k];
      HandleEachAppend(kinds[1..], k, handle, handle(kinds[0], c).config);
    }
  }

  lemma {:induction false} ErrorStops(kinds: seq<Kind>, more: seq<Kind>, handle: (Kind, Config) -> Outcome, c: Config)
    requires HandleEach(kinds, handle, c).err.Some?
    ensures HandleEach(kinds + more, handle, c) == HandleEach(kinds, handle, c)
    decreases kinds
  {
    assert (kinds + more)[1..] == kinds[1..] + more;
    var first := handle(kinds[0], c);
    if first.err.None? { ErrorStops(kinds[1..], more, handle, first.config); }
  }
}
