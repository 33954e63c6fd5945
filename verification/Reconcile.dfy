// What Create and Update write back to the Bucket CR
// (internal/controller/bucket/{create,update,helpers}.go): updateBucketCR reads
// the stored object anew before each callback and patches either its status or
// the rest of it.

module ApiServer {
  import opened Wrappers
  import opened Api

  datatype ApiError = NotFound | Failed(message: string)

  const REFUSED := Failed("api server unavailable")

  /** None of the calls from number `first` up to `next` was refused. */
  predicate AllAccepted(accepts: nat -> bool, first: nat, next: nat) {
    forall i: nat :: first <= i < next ==> accepts(i)
  }

  /** The stored object.  Whether the n-th call is accepted is fixed from outside;
      a refused call changes nothing. */
  class Server {
    const accepts: nat -> bool
    var calls: nat
    var stored: Option<CR>

    constructor (cr: CR, accepts: nat -> bool)
      ensures stored == Some(cr) && calls == 0 && this.accepts == accepts
    {
      this.accepts := accepts;
      calls, stored := 0, Some(cr);
    }

    method Get() returns (r: Result<CR, ApiError>)
      modifies this`calls
      ensures calls == old(calls) + 1
      ensures r == if !accepts(old(calls)) then Err(REFUSED)
                   else if stored.Some? then Ok(stored.value) else Err(NotFound)
    {
      calls := calls + 1;
      if !accepts(calls - 1) { return Err(REFUSED); }
      r := if stored.Some? then Ok(stored.value) else Err(NotFound);
    }

    /** Status().Patch: the status, and nothing else. */
    method PatchStatus(status: Status) returns (err: Option<ApiError>)
      modifies this
      ensures calls == old(calls) + 1
      ensures err == if !accepts(old(calls)) then Some(REFUSED) else if old(stored).None? then Some(NotFound) else None
      ensures stored == if err.None? then Some(old(stored).value.(status := status)) else old(stored)
    {
      calls := calls + 1;
      if !accepts(calls - 1) { return Some(REFUSED); }
      if stored.None? { return Some(NotFound); }
      stored := Some(stored.value.(status := status));
      err := None;
    }

    /** Patch: spec and labels; the status is a subresource and stays. */
    method PatchObject(spec: Spec, labels: Labels) returns (err: Option<ApiError>)
      modifies this
      ensures calls == old(calls) + 1
      ensures err == if !accepts(old(calls)) then Some(REFUSED) else if old(stored).None? then Some(NotFound) else None
      ensures stored == if err.None? then Some(old(stored).value.(spec := spec, labels := labels)) else old(stored)
    {
      calls := calls + 1;
      if !accepts(calls - 1) { return Some(REFUSED); }
      if stored.None? { return Some(NotFound); }
      stored := Some(stored.value.(spec := spec, labels := labels));
      err := None;
    }
  }
}

module Reconcile {
  import opened Wrappers
  import opened Api
  import opened ApiServer
  import opened SharedTable
  import opened Labelling
  import opened BucketStatus
  import opened Pausing
  import CreateProtocol
  import DeleteProtocol

  // --- Update ------------------------------------------------------------------

  /** The labels after Update's second callback, which sees the status written by
      the first: pause if required, then set the backend labels. */
  function LabelsAfterUpdate(spec: Spec, labels: Labels, status: Status, names: seq<string>, clients: set<string>,
                             b: Backends, autopauseEnabled: bool): Labels
  {
    AfterSetAll(if PauseRequired(spec, labels, status, names, clients, b, autopauseEnabled)
                then labels[PAUSED_LABEL := TRUE_STR] else labels, names)
  }

  /** Update's two callbacks.  On success the status is the one the table
      determines and the labels follow from that very status; a failure in
      between leaves at most the status written. */
  method WriteUpdateResult(api: Server, bb: BucketBackends, name: string, names: seq<string>, clients: set<string>,
                           minReplicas: nat, autopauseEnabled: bool)
    returns (err: Option<ApiError>)
    requires api.stored.Some? && api.stored.value.name == name
    modifies api
    ensures api.stored.Some?
    ensures api.stored.value.spec == old(api.stored.value.spec)
    ensures api.stored.value.status == old(api.stored.value.status) ||
            IsStatusAfter(old(api.stored.value.status), api.stored.value.status, bb.Of(name), names, minReplicas)
    ensures err.None? ==>
              && IsStatusAfter(old(api.stored.value.status), api.stored.value.status, bb.Of(name), names, minReplicas)
              && api.stored.value ==
                   old(api.stored.value).(status := api.stored.value.status, labels := api.stored.value.labels)
              && api.stored.value.labels == LabelsAfterUpdate(old(api.stored.value.spec), old(api.stored.value.labels),
                   api.stored.value.status, names, clients, bb.Of(name), autopauseEnabled)
    ensures err.Some? ==> api.stored.value.labels == old(api.stored.value.labels)
    ensures err.None? <==> AllAccepted(api.accepts, old(api.calls), api.calls)
  {
    err := WriteStatus(api, bb, name, names, minReplicas);
    if err.Some? { return; }
    err := WriteLabels(api, bb, name, names, clients, autopauseEnabled);
  }

  /** The second callback. */
  method WriteLabels(api: Server, bb: BucketBackends, name: string, names: seq<string>, clients: set<string>,
                     autopauseEnabled: bool)
    returns (err: Option<ApiError>)
    requires api.stored.Some? && api.stored.value.name == name
    modifies api
    ensures api.stored.Some?
    ensures var before := old(api.stored.value);
            api.stored.value == if err.Some? then before
                                else before.(labels := LabelsAfterUpdate(before.spec, before.labels, before.status,
                                    names,
                                                         clients, bb.Of(name), autopauseEnabled))
    ensures err.None? <==> AllAccepted(api.accepts, old(api.calls), api.calls)
  {
    var r := api.Get();
    if r.Err? { return Some(r.error); }
    var bucket := new Bucket(r.value);
    var pause := IsPauseRequired(bucket, names, clients, bb, autopauseEnabled);
    if pause {
      bucket.labels := bucket.labels[PAUSED_LABEL := TRUE_STR];
    }
    SetAllBackendLabels(bucket, names);
    err := api.PatchObject(bucket.spec, bucket.labels);
  }

  /** The status callback Update and Delete share. */
  method WriteStatus(api: Server, bb: BucketBackends, name: string, names: seq<string>, minReplicas: nat)
    returns (err: Option<ApiError>)
    requires api.stored.Some? && api.stored.value.name == name
    modifies api
    ensures err.Some? ==> api.stored == old(api.stored)
    ensures err.None? ==>
              && api.stored.Some?
              && IsStatusAfter(old(api.stored.value.status), api.stored.value.status, bb.Of(name), names, minReplicas)
              && api.stored.value == old(api.stored.value).(status := api.stored.value.status)
    ensures api.calls > old(api.calls) && (err.None? <==> AllAccepted(api.accepts, old(api.calls), api.calls))
  {
    var r := api.Get();
    if r.Err? { return Some(r.error); }
    var bucket := new Bucket(r.value);
    SetBucketStatus(bucket, bb, names, minReplicas);
    err := api.PatchStatus(bucket.status);
  }

  // --- Delete ------------------------------------------------------------------

  /** What Delete does after its goroutines: the status in any case; then, if the
      first error was "not empty", the deletion is given up, and a CR that asked
      for it by being disabled is enabled again. */
  method WriteDeleteResult(api: Server, bb: BucketBackends, name: string, names: seq<string>, minReplicas: nat,
                           deleteErr: Option<DeleteProtocol.DeleteError>)
    returns (apiErr: Option<ApiError>, err: Option<DeleteProtocol.DeleteError>)
    requires api.stored.Some? && api.stored.value.name == name
    modifies api
    ensures api.stored.Some?
    ensures api.stored != old(api.stored) ==>
              IsStatusAfter(old(api.stored.value.status), api.stored.value.status, bb.Of(name), names, minReplicas)
    ensures apiErr.None? ==>
              && IsStatusAfter(old(api.stored.value.status), api.stored.value.status, bb.Of(name), names, minReplicas)
              && api.stored.value == old(api.stored.value).(
                   status := api.stored.value.status,
                   spec := if deleteErr == Some(DeleteProtocol.NotEmpty)
                           then old(api.stored.value.spec).(disabled := false) else old(api.stored.value.spec))
              && err == (if deleteErr == Some(DeleteProtocol.NotEmpty) then None else deleteErr)
    ensures apiErr.Some? ==> api.stored.value == old(api.stored.value).(status := api.stored.value.status) && err.None?
    ensures apiErr.None? <==> AllAccepted(api.accepts, old(api.calls), api.calls)
  {
    err := None;
    apiErr := WriteStatus(api, bb, name, names, minReplicas);
    if apiErr.Some? { return; }
    if deleteErr.None? { return; }
    if deleteErr.value.NotEmpty? {
      if !api.stored.value.spec.disabled { return; }
      var r := api.Get();
      if r.Err? { return Some(r.error), None; }
      var bucket := new Bucket(r.value);
      bucket.spec := bucket.spec.(disabled := false);
      apiErr := api.PatchObject(bucket.spec, bucket.labels);
      return;
    }
    err := deleteErr;
  }

  // --- Create ------------------------------------------------------------------

  /** The CR after Create: Available with one recorded backend, or Unavailable, or
      labelled and paused for want of a backend; nothing else changes. */
  predicate CreateWritten(end: CreateProtocol.Main, names: seq<string>, before: CR, after: CR)
    requires end.Returned()
  {
    match end
    case Ready(backend) =>
      && after == before.(labels := AfterSetAll(before.labels, names), status := after.status)
      && after.status.conditions == before.status.conditions[Ready := AVAILABLE]
      && after.status.backends == map[backend := EMPTY_INFO.(bucket := AVAILABLE)]
    case FellThrough => after == before.(status := before.status.SetCondition(UNAVAILABLE))
    case NoBackends => after == before.(labels := AfterSetAll(before.labels, names)[PAUSED_LABEL := TRUE_STR])
  }

  /** What waitForCreationAndUpdateBucketCR and the no-backends branch write,
      given how the goroutine protocol ended. */
  method WriteCreateResult(api: Server, names: seq<string>, end: CreateProtocol.Main) returns (err: Option<ApiError>)
    requires api.stored.Some? && end.Returned()
    modifies api
    ensures api.stored.Some? && api.stored.value.spec == old(api.stored.value.spec)
    ensures err.None? ==> CreateWritten(end, names, old(api.stored.value), api.stored.value)
    ensures !end.Ready? && err.Some? ==> api.stored == old(api.stored)
    ensures end.Ready? && err.Some? ==>
              && api.stored.value.status == old(api.stored.value.status)
              && api.stored.value.labels in {old(api.stored.value.labels),
                   AfterSetAll(old(api.stored.value.labels), names)}
    ensures err.None? <==> AllAccepted(api.accepts, old(api.calls), api.calls)
  {
    var r := api.Get();
    if r.Err? { return Some(r.error); }
    var bucket := new Bucket(r.value);
    match end {
      case NoBackends =>
        SetAllBackendLabels(bucket, names);
        bucket.labels := bucket.labels[PAUSED_LABEL := TRUE_STR];
        err := api.PatchObject(bucket.spec, bucket.labels);
      case FellThrough =>
        bucket.status := bucket.status.SetCondition(UNAVAILABLE);
        err := api.PatchStatus(bucket.status);
      case Ready(backend) =>
        SetAllBackendLabels(bucket, names);
        err := api.PatchObject(bucket.spec, bucket.labels);
        if err.Some? { return; }
        r := api.Get();
        if r.Err? { return Some(r.error); }
        bucket := new Bucket(r.value);
        bucket.status := bucket.status.SetCondition(AVAILABLE);
        bucket.status := bucket.status.(backends := map[backend := EMPTY_INFO.(bucket := AVAILABLE)]);
        err := api.PatchStatus(bucket.status);
    }
  }
}
