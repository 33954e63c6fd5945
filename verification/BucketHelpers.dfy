// Labels, status and the pause decision of one Bucket CR
// (internal/controller/bucket/helpers.go).

module Labelling {
  import opened Api
  import opened Sets

  /** The label key of a backend. */
  function Label(backend: string): string { BACKEND_LABEL_PREFIX + backend }

  predicate IsBackendLabel(key: string) { BACKEND_LABEL_PREFIX <= key }

  function Strip(key: string): string
    requires IsBackendLabel(key)
  {
    key[|BACKEND_LABEL_PREFIX|..]
  }

  /** The backends whose label says "true". */
  function EnabledBackends(labels: Labels): set<string> {
    set k | k in labels && IsBackendLabel(k) && labels[k] == TRUE_STR :: Strip(k)
  }

  lemma EnabledByLabel(labels: Labels, backend: string)
    ensures backend in EnabledBackends(labels) <==> Label(backend) in labels && labels[Label(backend)] == TRUE_STR
  {
    assert Strip(Label(backend)) == backend;
    if backend in EnabledBackends(labels) {
      var k :| k in labels && IsBackendLabel(k) && labels[k] == TRUE_STR && Strip(k) == backend;
      assert k == Label(backend);
    }
  }

  lemma LabelInjective(a: string, b: string)
    requires Label(a) == Label(b)
    ensures a == b
  {
    assert Strip(Label(a)) == a && Strip(Label(b)) == b;
  }

  predicate DisabledByLabel(labels: Labels, backend: string) {
    Label(backend) in labels && labels[Label(backend)] != TRUE_STR
  }

  /** The listed backends not disabled by label, in order. */
  function Chosen(labels: Labels, providers: seq<string>): (r: seq<string>)
    ensures forall n :: n in r <==> n in providers && !DisabledByLabel(labels, n)
  {
    if providers == [] then []
    else
      var rest := Chosen(labels, providers[1..]);
      assert providers == [providers[0]] + providers[1..];
      if DisabledByLabel(labels, providers[0]) then rest else [providers[0]] + rest
  }

  /** The labels after setAllBackendLabels: every key equal to the bare name of
      an enabled backend is deleted, then each listed backend without a label
      gets one. */
  function AfterSetAll(labels: Labels, names: seq<string>): Labels {
    var kept := labels - EnabledBackends(labels);
    var added := map n | n in Elements(LabelsOf(names)) && n !in kept :: TRUE_STR;
    kept + added
  }

  function LabelsOf(names: seq<string>): seq<string> {
    seq(|names|, i requires 0 <= i < |names| => Label(names[i]))
  }

  lemma InLabelsOf(names: seq<string>, key: string)
    ensures key in Elements(LabelsOf(names)) <==> exists n :: n in names && key == Label(n)
  {
    if n :| n in names && key == Label(n) {
      var i :| 0 <= i < |names| && names[i] == n;
      assert LabelsOf(names)[i] == key;
    }
    if key in LabelsOf(names) {
      var i :| 0 <= i < |names| && LabelsOf(names)[i] == key;
      assert names[i] in names;
    }
  }

  /** One more backend in the list: labelled unless its key is already there. */
  lemma AddOne(kept: Labels, names: seq<string>, n: string, before: Labels)
    requires before == kept + map k | k in Elements(LabelsOf(names)) && k !in kept :: TRUE_STR
    ensures kept + (map k | k in Elements(LabelsOf(names + [n])) && k !in kept :: TRUE_STR)
            == if Label(n) in before then before else before[Label(n) := TRUE_STR]
  {
    assert LabelsOf(names + [n]) == LabelsOf(names) + [Label(n)];
    assert Elements(LabelsOf(names + [n])) == Elements(LabelsOf(names)) + {Label(n)};
  }

  lemma {:induction false} ChosenAppend(labels: Labels, providers: seq<string>, n: string)
    ensures Chosen(labels, providers + [n]) ==
            Chosen(labels, providers) + if DisabledByLabel(labels, n) then [] else [n]
  {
    if providers == [] {
      assert providers + [n] == [n];
    } else {
      assert (providers + [n])[1..] == providers[1..] + [n];
      ChosenAppend(labels, providers[1..], n);
    }
  }

  lemma ChosenNext(labels: Labels, providers: seq<string>, i: nat)
    requires i < |providers|
    ensures Chosen(labels, providers[..i + 1]) ==
            Chosen(labels, providers[..i]) + if DisabledByLabel(labels, providers[i]) then [] else [providers[i]]
  {
    ChosenAppend(labels, providers[..i], providers[i]);
    assert providers[..i + 1] == providers[..i] + [providers[i]];
  }

  /** After setAllBackendLabels every backend that was not disabled by label is
      an enabled one. */
  lemma ChosenBecomeEnabled(labels: Labels, providers: seq<string>, n: string)
    requires n in Chosen(labels, providers)
    ensures n in EnabledBackends(AfterSetAll(labels, Chosen(labels, providers)))
  {
    InLabelsOf(Chosen(labels, providers), Label(n));
    EnabledByLabel(AfterSetAll(labels, Chosen(labels, providers)), n);
  }

  /** A label survives with its value exactly when it is not the bare name of an
      enabled backend, or is itself the "true" label of a listed one. */
  lemma LabelSurvives(labels: Labels, names: seq<string>, key: string)
    requires key in labels
    ensures key in AfterSetAll(labels, names) && AfterSetAll(labels, names)[key] == labels[key] <==>
            key !in EnabledBackends(labels) || (labels[key] == TRUE_STR && exists n :: n in names && key == Label(n))
  {
    InLabelsOf(names, key);
  }

  /** No enabled backend has a name that is itself a label key. */
  predicate NoBareNameIsKey(labels: Labels) { EnabledBackends(labels) !! labels.Keys }

  /** Then nothing is lost and only missing "true" labels are added; the same
      backends are chosen again, and a second call changes nothing. */
  lemma SetAllOnlyAdds(labels: Labels, providers: seq<string>)
    requires NoBareNameIsKey(labels)
    ensures var names := Chosen(labels, providers); var after := AfterSetAll(labels, names);
            && (forall k :: k in labels ==> k in after && after[k] == labels[k])
            && (forall k :: k in after && k !in labels ==>
                 after[k] == TRUE_STR && exists n :: n in names && k == Label(n))
            && Chosen(after, providers) == names
  {
    var names := Chosen(labels, providers);
    var after := AfterSetAll(labels, names);
    forall k | k in after && k !in labels ensures exists n :: n in names && k == Label(n) {
      InLabelsOf(names, k);
    }
    forall n | n in providers ensures DisabledByLabel(after, n) <==> DisabledByLabel(labels, n) {
      if Label(n) in after && Label(n) !in labels { InLabelsOf(names, Label(n)); }
    }
    SameChoice(labels, after, providers);
  }

  lemma {:induction false} SameChoice(a: Labels, b: Labels, providers: seq<string>)
    requires forall n :: n in providers ==> (DisabledByLabel(a, n) <==> DisabledByLabel(b, n))
    ensures Chosen(a, providers) == Chosen(b, providers)
  {
    if providers != [] {
      assert providers[0] in providers;
      assert forall n :: n in providers[1..] ==> n in providers;
      SameChoice(a, b, providers[1..]);
    }
  }

  /** The enabled backends once the listed ones are labelled. */
  function EnabledAfter(labels: Labels, names: seq<string>): set<string> {
    (set b | b in EnabledBackends(labels) && Label(b) !in EnabledBackends(labels))
    + (set n | n in names && !(Label(n) in labels && Label(n) !in EnabledBackends(labels)))
  }

  lemma EnabledAfterExact(labels: Labels, names: seq<string>)
    ensures EnabledBackends(AfterSetAll(labels, names)) == EnabledAfter(labels, names)
  {
    var after := AfterSetAll(labels, names);
    forall b ensures b in EnabledBackends(after) <==> b in EnabledAfter(labels, names) {
      EnabledByLabel(labels, b);
      EnabledByLabel(after, b);
      InLabelsOf(names, Label(b));
      if n :| n in names && Label(b) == Label(n) { LabelInjective(b, n); }
    }
  }

  /** A backend that is enabled after the call and whose bare name is a label key
      then is, under that name, the "true" label of a listed backend. */
  predicate BareNamesHarmless(labels: Labels, names: seq<string>) {
    forall b :: b in EnabledAfter(labels, names) ==>
      (b in labels && b !in EnabledBackends(labels) ==> labels[b] == TRUE_STR && b in LabelsOf(names))
  }

  /** A second setAllBackendLabels changes nothing exactly when no bare name
      costs a label. */
  lemma SetAllIdempotent(labels: Labels, names: seq<string>)
    ensures AfterSetAll(AfterSetAll(labels, names), names) == AfterSetAll(labels, names) <==>
            BareNamesHarmless(labels, names)
  {
    var after := AfterSetAll(labels, names);
    EnabledAfterExact(labels, names);
    if AfterSetAll(after, names) == after {
      forall b | b in EnabledAfter(labels, names) && b in labels && b !in EnabledBackends(labels)
        ensures labels[b] == TRUE_STR && b in LabelsOf(names)
      {
        assert b in after && after[b] == labels[b];
        LabelSurvives(after, names, b);
        InLabelsOf(names, b);
      }
    } else if BareNamesHarmless(labels, names) {
      forall k | k in after ensures k in AfterSetAll(after, names) && AfterSetAll(after, names)[k] == after[k] {
        LabelSurvives(after, names, k);
        InLabelsOf(names, k);
      }
    }
  }

  method GetAllBackendLabels(bucket: Bucket) returns (backends: map<string, string>)
    ensures backends.Keys == EnabledBackends(bucket.labels)
    ensures forall n :: n in backends ==> backends[n] == TRUE_STR
  {
    backends := map[];
    var todo := bucket.labels.Keys;
    while todo != {}
      invariant todo <= bucket.labels.Keys
      invariant backends.Keys == set k | k in bucket.labels.Keys - todo && IsBackendLabel(k)
                && bucket.labels[k] == TRUE_STR :: Strip(k)
      invariant forall n :: n in backends ==> backends[n] == TRUE_STR
    {
      var k :| k in todo;
      if IsBackendLabel(k) && bucket.labels[k] == TRUE_STR {
        backends := backends[Strip(k) := bucket.labels[k]];
      }
      todo := todo - {k};
    }
  }

  method SetAllBackendLabels(bucket: Bucket, names: seq<string>)
    modifies bucket`labels
    ensures bucket.labels == AfterSetAll(old(bucket.labels), names)
  {
    DeleteLabels(bucket);
    ghost var kept := bucket.labels;
    for i := 0 to |names|
      invariant bucket.labels == kept + map k | k in Elements(LabelsOf(names[..i])) && k !in kept :: TRUE_STR
    {
      AddOne(kept, names[..i], names[i], bucket.labels);
      assert names[..i + 1] == names[..i] + [names[i]];
      if Label(names[i]) in bucket.labels { continue; }
      bucket.labels := bucket.labels[Label(names[i]) := TRUE_STR];
    }
    assert names[..|names|] == names;
  }

  /** Its first loop: existing backend labels are deleted, under their bare names. */
  method DeleteLabels(bucket: Bucket)
    modifies bucket`labels
    ensures bucket.labels == old(bucket.labels) - EnabledBackends(old(bucket.labels))
  {
    var existing := GetAllBackendLabels(bucket);
    var todo := existing.Keys;
    while todo != {}
      invariant todo <= existing.Keys
      invariant bucket.labels == old(bucket.labels) - (existing.Keys - todo)
    {
      var k :| k in todo;
      bucket.labels := bucket.labels - {k};
      todo := todo - {k};
    }
  }

  method GetBucketProvidersFilterDisabledLabel(bucket: Bucket, allNames: seq<string>) returns (okProviders: seq<string>)
    ensures okProviders ==
            Chosen(bucket.labels, if bucket.spec.providers == [] then allNames else bucket.spec.providers)
  {
    var providers := bucket.spec.providers;
    if |providers| == 0 { providers := allNames; }
    okProviders := [];
    for i := 0 to |providers|
      invariant okProviders == Chosen(bucket.labels, providers[..i])
    {
      ChosenNext(bucket.labels, providers, i);
      if DisabledByLabel(bucket.labels, providers[i]) { continue; }
      okProviders := okProviders + [providers[i]];
    }
    assert providers[..|providers|] == providers;
  }
}

module BucketStatus {
  import opened Api
  import opened SharedTable
  import opened Sets
  import opened Strings
  import opened Sorting

  const UNAVAILABLE_PREFIX := "Bucket is unavailable on the following backends: "

  /** The recorded entries of the listed backends. */
  function Recorded(b: Backends, names: seq<string>): Backends {
    map n | n in b && n in names :: b[n]
  }

  function AvailableNames(b: Backends): set<string> {
    set n | n in b && b[n].bucket == AVAILABLE
  }

  /** The bucket is available on every listed backend. */
  predicate AllAvailable(b: Backends, names: seq<string>) {
    forall n :: n in names ==> n in b && b[n].bucket == AVAILABLE
  }

  /** Counting distinct available entries against list positions. */
  lemma CountAgainstPositions(b: Backends, names: seq<string>)
    ensures |AvailableNames(Recorded(b, names))| >= |names| <==> NoDuplicates(names) && AllAvailable(b, names)
    ensures |AvailableNames(Recorded(b, names))| <= |names|
  {
    var available := AvailableNames(Recorded(b, names));
    assert available <= Elements(names);
    SubsetSize(available, Elements(names));
    Pigeonhole(names);
    if AllAvailable(b, names) {
      assert available == Elements(names);
    }
    if |available| >= |names| {
      if n :| n in names && n !in available {
        assert available <= Elements(names) - {n};
        SubsetSize(available, Elements(names) - {n});
        assert false;
      }
    }
  }

  /** The status setBucketStatus leaves, given the error message. */
  function StatusWith(s: Status, recorded: Backends, ready: Condition, synced: Condition): Status {
    Status(s.conditions[Ready := ready][Synced := synced], recorded)
  }

  /** Ready counts available backends against the quota; Synced holds exactly
      when the list has no duplicate, every listed backend is available and the
      list is at least the quota long; otherwise the error names exactly the
      recorded backends that are not available, in sorted order. */
  ghost predicate IsStatusAfter(s: Status, t: Status, b: Backends, names: seq<string>, minReplicas: nat) {
    var recorded := Recorded(b, names);
    var available := AvailableNames(recorded);
    var ready := if |available| >= minReplicas then AVAILABLE else UNAVAILABLE;
    var synced := NoDuplicates(names) && AllAvailable(b, names) && |names| >= minReplicas;
    if synced then t == StatusWith(s, recorded, ready, RECONCILE_SUCCESS)
    else exists list :: IsSortedListing(list, recorded.Keys - available)
                        && t == StatusWith(s, recorded, ready, ReconcileError(UNAVAILABLE_PREFIX + Join(list, ", ")))
  }

  lemma StatusBackends(s: Status, t: Status, b: Backends, names: seq<string>, minReplicas: nat)
    requires IsStatusAfter(s, t, b, names, minReplicas)
    ensures t.backends == Recorded(b, names)
  {
  }

  /** So the status is determined, whatever order the table was walked in. */
  lemma StatusDetermined(s: Status, t: Status, u: Status, b: Backends, names: seq<string>, minReplicas: nat)
    requires IsStatusAfter(s, t, b, names, minReplicas) && IsStatusAfter(s, u, b, names, minReplicas)
    ensures t == u
  {
    var recorded := Recorded(b, names);
    var bad := recorded.Keys - AvailableNames(recorded);
    if !(NoDuplicates(names) && AllAvailable(b, names) && |names| >= minReplicas) {
      var ready := if |AvailableNames(recorded)| >= minReplicas then AVAILABLE else UNAVAILABLE;
      var p :| IsSortedListing(p, bad)
          && t == StatusWith(s, recorded, ready, ReconcileError(UNAVAILABLE_PREFIX + Join(p, ", ")));
      var q :| IsSortedListing(q, bad)
          && u == StatusWith(s, recorded, ready, ReconcileError(UNAVAILABLE_PREFIX + Join(q, ", ")));
      SortedListingUnique(p, q, bad);
    }
  }

  /** What the branches of setBucketStatus amount to. */
  lemma ComputedStatus(s: Status, b: Backends, names: seq<string>, minReplicas: nat, unavailable: seq<string>)
    requires NoDuplicates(unavailable)
    requires Elements(unavailable) == Recorded(b, names).Keys - AvailableNames(Recorded(b, names))
    ensures var recorded := Recorded(b, names); var ok := |AvailableNames(recorded)|;
            IsStatusAfter(s,
              StatusWith(s, recorded, if ok >= minReplicas then AVAILABLE else UNAVAILABLE,
                if ok >= |names| && ok >= minReplicas then RECONCILE_SUCCESS
                else ReconcileError(UNAVAILABLE_PREFIX + Join(Sort(Self, unavailable), ", "))),
              b, names, minReplicas)
  {
    CountAgainstPositions(b, names);
    SortListing(unavailable);
  }

  method SetBucketStatus(bucket: Bucket, bb: BucketBackends, names: seq<string>, minReplicas: nat)
    modifies bucket`status
    ensures IsStatusAfter(old(bucket.status), bucket.status, bb.Of(bucket.name), names, minReplicas)
  {
    ghost var unavailable := SetBackendsAndConditions(bucket, bb, names, minReplicas);
    ComputedStatus(old(bucket.status), bb.Of(bucket.name), names, minReplicas, unavailable);
  }

  /** Its statements; the unavailable backends come in the order of the map. */
  method SetBackendsAndConditions(bucket: Bucket, bb: BucketBackends, names: seq<string>, minReplicas: nat)
    returns (ghost listed: seq<string>)
    modifies bucket`status
    ensures NoDuplicates(listed)
    ensures Elements(listed) ==
            Recorded(bb.Of(bucket.name), names).Keys - AvailableNames(Recorded(bb.Of(bucket.name), names))
    ensures var recorded := Recorded(bb.Of(bucket.name), names); var ok := |AvailableNames(recorded)|;
            bucket.status == StatusWith(old(bucket.status), recorded,
              if ok >= minReplicas then AVAILABLE else UNAVAILABLE,
              if ok >= |names| && ok >= minReplicas then RECONCILE_SUCCESS
              else ReconcileError(UNAVAILABLE_PREFIX + Join(Sort(Self, listed), ", ")))
  {
    var backends := bb.GetBackends(bucket.name, names);
    assert backends == Recorded(bb.Of(bucket.name), names);
    var ok, unavailable := CountAvailable(backends);
    listed := unavailable;
    SetConditions(bucket, backends, ok, UNAVAILABLE_PREFIX + Join(Sort(Self, unavailable), ", "), |names|, minReplicas);
  }

  method SetConditions(bucket: Bucket, backends: Backends, ok: nat, message: string, wanted: nat, minReplicas: nat)
    modifies bucket`status
    ensures bucket.status ==
            StatusWith(old(bucket.status), backends, if ok >= minReplicas then AVAILABLE else UNAVAILABLE,
              if ok >= wanted && ok >= minReplicas then RECONCILE_SUCCESS else ReconcileError(message))
  {
    ghost var before := bucket.status.conditions;
    bucket.status := bucket.status.SetCondition(UNAVAILABLE);
    bucket.status := bucket.status.(backends := backends);
    if ok >= minReplicas {
      bucket.status := bucket.status.SetCondition(AVAILABLE);
      assert bucket.status.conditions == before[Ready := AVAILABLE];
    }
    var ready := bucket.status.GetCondition(Ready) == AVAILABLE;
    assert ready <==> ok >= minReplicas;
    var synced := if ok >= wanted && ready then RECONCILE_SUCCESS else ReconcileError(message);
    bucket.status := bucket.status.SetCondition(synced);
  }

  /** The loop over the map: it may come to the entries in any order. */
  method CountAvailable(backends: Backends) returns (ok: nat, unavailable: seq<string>)
    ensures ok == |AvailableNames(backends)|
    ensures NoDuplicates(unavailable) && Elements(unavailable) == backends.Keys - AvailableNames(backends)
  {
    ok, unavailable := 0, [];
    var todo := backends.Keys;
    ghost var counted: set<string> := {};
    while todo != {}
      invariant todo <= backends.Keys
      invariant ok == |counted|
      invariant forall n :: n in counted <==> n in backends && n !in todo && backends[n].bucket == AVAILABLE
      invariant NoDuplicates(unavailable)
      invariant forall n :: n in unavailable <==> n in backends && n !in todo && backends[n].bucket != AVAILABLE
    {
      var n :| n in todo;
      todo := todo - {n};
      if backends[n].bucket == AVAILABLE {
        ok := ok + 1;
        counted := counted + {n};
        continue;
      }
      unavailable := unavailable + [n];
    }
    assert counted == AvailableNames(backends);
    assert Elements(unavailable) == backends.Keys - AvailableNames(backends);
  }
}

module Pausing {
  import opened Wrappers
  import opened Api
  import opened BackendTable
  import opened SharedTable

  function PauseLabel(labels: Labels): string {
    if PAUSED_LABEL in labels then labels[PAUSED_LABEL] else ""
  }

  predicate LifecycleIs(b: Backends, names: seq<string>, c: Option<Condition>) {
    forall n :: n in names ==> InfoOf(b, n).lifecycle == c
  }

  predicate VersioningIs(b: Backends, names: seq<string>, c: Option<Condition>) {
    forall n :: n in names ==> InfoOf(b, n).versioning == c
  }

  predicate ObjectLockIs(b: Backends, names: seq<string>, c: Option<Condition>) {
    forall n :: n in names ==> InfoOf(b, n).objectLock == c
  }

  /** The sub-resource conditions of the backends fit the spec, and versioning
      is recorded on all of them or on none. */
  predicate ConditionsMatch(spec: Spec, b: Backends, names: seq<string>) {
    && (!spec.lifecycleDisabled && spec.lifecycle.Some? ==> LifecycleIs(b, names, Some(AVAILABLE)))
    && (spec.lifecycleDisabled ==> LifecycleIs(b, names, None))
    && (spec.versioning.Some? ==> VersioningIs(b, names, Some(AVAILABLE)))
    && (VersioningIs(b, names, None) || VersioningIs(b, names, Some(AVAILABLE)))
    && (spec.objectLock.Some? ==> ObjectLockIs(b, names, Some(AVAILABLE)))
  }

  /** When a bucket is to be paused, stated without the order of the checks and
      without skipping any backend. */
  predicate PauseRequired(spec: Spec, labels: Labels, status: Status, names: seq<string>, clients: set<string>,
                          b: Backends, autopauseEnabled: bool)
  {
    && status.GetCondition(Ready) == AVAILABLE
    && status.GetCondition(Synced) == RECONCILE_SUCCESS
    && (forall n :: n in names ==> AvailableOn(b, clients, n))
    && ConditionsMatch(spec, b, names)
    && (spec.autoPause || autopauseEnabled)
    && PauseLabel(labels) == ""
  }

  method IsPauseRequired(bucket: Bucket, names: seq<string>, clients: set<string>, bb: BucketBackends,
      autopauseEnabled: bool)
    returns (r: bool)
    ensures r <==> PauseRequired(bucket.spec, bucket.labels, bucket.status, names, clients, bb.Of(bucket.name),
            autopauseEnabled)
  {
    if bucket.status.GetCondition(Ready) != AVAILABLE || bucket.status.GetCondition(Synced) != RECONCILE_SUCCESS {
      return false;
    }
    var count := bb.CountBucketsAvailableOnBackends(bucket.name, names, clients);
    if count < |names| {
      return false;
    }
    var lifecycleAvailable := bb.IsLifecycleConfigAvailableOnBackends(bucket.name, names, clients);
    if !bucket.spec.lifecycleDisabled && bucket.spec.lifecycle.Some? && !lifecycleAvailable {
      return false;
    }
    var lifecycleRemoved := bb.IsLifecycleConfigRemovedFromBackends(bucket.name, names, clients);
    if bucket.spec.lifecycleDisabled && !lifecycleRemoved {
      return false;
    }
    var versioningAvailable := bb.IsVersioningConfigAvailableOnBackends(bucket.name, names, clients);
    if bucket.spec.versioning.Some? && !versioningAvailable {
      return false;
    }
    var versioningRemoved := bb.IsVersioningConfigRemovedFromBackends(bucket.name, names, clients);
    if !versioningRemoved && !versioningAvailable {
      return false;
    }
    var lockAvailable := bb.IsObjectLockConfigAvailableOnBackends(bucket.name, names, clients);
    if bucket.spec.objectLock.Some? && !lockAvailable {
      return false;
    }
    r := (bucket.spec.autoPause || autopauseEnabled) && PauseLabel(bucket.labels) == "";
  }

  method IsBucketPaused(bucket: Bucket) returns (r: bool)
    ensures r <==> PauseLabel(bucket.labels) == TRUE_STR
  {
    r := PAUSED_LABEL in bucket.labels && bucket.labels[PAUSED_LABEL] == TRUE_STR;
  }

  method IsBucketAvailableFromStatus(bucket: Bucket, names: seq<string>, clients: set<string>) returns (r: bool)
    ensures r <==> forall n :: n in names && n in clients ==> AvailableOn(bucket.status.backends, clients, n)
  {
    for i := 0 to |names|
      invariant forall j :: 0 <= j < i && names[j] in clients ==> AvailableOn(bucket.status.backends, clients, names[j])
    {
      if names[i] !in clients { continue; }
      if names[i] !in bucket.status.backends { return false; }
      if bucket.status.backends[names[i]].bucket != AVAILABLE { return false; }
    }
    return true;
  }
}
