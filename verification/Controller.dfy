// Create, Delete and Update as a whole, and the Observe that follows an Update
// (internal/controller/bucket/{create,delete,update,observe}.go): choose the
// backends, fan out under an arbitrary scheduler, write the CR.

module Controller {
  import opened Wrappers
  import opened Api
  import opened ApiServer
  import opened Labelling
  import opened BucketStatus
  import opened Pausing
  import opened Reconcile
  import opened Sets
  import B = SharedTable
  import BC = BucketCreation
  import C = CreateProtocol
  import DeleteProtocol
  import DisabledRuns
  import FanIn
  import FanOut
  import Observing
  import opened PauseAutomaton
  import SubResources
  import UpdateProtocol

  datatype ReconcileError =
    | NoBackendsStored
    | AllBackendsDisabled
    | ApiFailure(e: ApiError)
    | BackendFailure(message: string)

  /** A call of the API server was refused. */
  predicate Refused(err: Option<ReconcileError>) { err.Some? && err.value.ApiFailure? }

  /** Without a backend, or with all of them disabled, nothing is done. */
  function NothingToDo(allNames: seq<string>): ReconcileError {
    if allNames == [] then NoBackendsStored else AllBackendsDisabled
  }

  // --- Create ------------------------------------------------------------------

  /** Any event that can happen now; the context may expire at any moment. */
  method ScheduleCreate(c: C.Input, s: C.State) returns (e: C.Event)
    requires c.Valid() && C.Inv(c, s) && !s.main.Returned()
    ensures C.Enabled(c, s, e)
  {
    var expire, main: bool := *, *;
    if expire && !s.expired { return C.Expire; }
    if s.main.Spawning? {
      if s.main.next == |c.names| { return C.StartReceiving; }
      if main || forall i :: 0 <= i < |s.workers| ==> !C.CanMove(c, s, i) { return C.Spawn; }
    } else {
      if s.main.i >= s.count { return C.LeaveLoop; }
      if main && s.errChan != [] { return C.ReceiveReport; }
      if main && s.expired { return C.ReceiveDone; }
      if s.winner.Some? && (main || forall i :: 0 <= i < |s.workers| ==> !C.CanMove(c, s, i)) {
        return C.ReceiveReady(s.winner.value);
      }
      if forall i :: 0 <= i < |s.workers| ==> !C.CanMove(c, s, i) {
        C.AllReported(c, s);
        return C.ReceiveReport;
      }
    }
    var i: nat :| i < |s.workers| && C.CanMove(c, s, i);
    e := if s.workers[i].Creating? then C.CreateReturns(i)
         else if s.workers[i].Created? then C.CompareAndSwap(i) else C.Report(i);
  }

  /** Create on a CR: nothing for a disabled one; otherwise the goroutines race
      under an arbitrary scheduler until the receiver returns, and the CR and the
      error say how the race ended.  Unless the context expired, the CR becomes
      Ready, recording a backend on which the bucket was created, exactly if some
      backend with a client answers "created"; if none does, whatever else they
      answer, no backend is recorded. */
  method Create(api: Server, allNames: seq<string>, hasClient: string -> bool, answer: string -> BC.Answer)
    returns (err: Option<ReconcileError>, ghost c: C.Input, ghost run: seq<C.Event>)
    requires api.stored.Some?
    modifies api
    ensures api.stored.Some? && api.stored.value.spec == old(api.stored.value.spec) && c.Valid()
    ensures old(api.stored.value.spec.disabled) ==> err.None? && api.stored == old(api.stored) && run == []
    ensures !old(api.stored.value.spec.disabled) && (allNames == [] || c.names == []) ==>
              err == Some(NothingToDo(allNames)) && api.stored == old(api.stored)
    ensures Refused(err) <==> !AllAccepted(api.accepts, old(api.calls), api.calls)
    ensures c.names == Chosen(old(api.stored.value.labels),
              if old(api.stored.value.spec.providers) == [] then allNames else old(api.stored.value.spec.providers))
    ensures c.hasClient == RepliesFor(hasClient, c.names)
    ensures c.results == RepliesFor(n => BC.ResultOf(answer(n)), c.names)
    ensures forall i :: c.Succeeds(i) <==> 0 <= i < |c.names| && hasClient(c.names[i]) && answer(c.names[i]).Created?
    ensures (forall n :: n in c.names && hasClient(n) ==> !answer(n).Created?) ==>
              api.stored.value.status.backends == old(api.stored.value.status.backends)
    ensures !old(api.stored.value.spec.disabled) && allNames != [] && c.names != [] ==>
              && C.Run(c, run).Some? && C.Run(c, run).value.main.Returned()
              && var end := C.Run(c, run).value;
              && (C.Expire !in run ==>
                    (end.main.Ready? <==> exists n :: n in c.names && hasClient(n) && answer(n).Created?))
              && (!Refused(err) ==>
                    && CreateWritten(end.main, c.names, old(api.stored.value), api.stored.value)
                    && err == if end.main.FellThrough? && end.createErr.Some?
                              then Some(BackendFailure(end.createErr.value)) else None)
    ensures !old(api.stored.value.spec.disabled) && allNames != [] && c.names != [] && C.Expire !in run
              && (exists i :: c.Succeeds(i)) && !Refused(err) ==>
              && err.None? && api.stored.value.status.GetCondition(Ready) == AVAILABLE
              && exists i: nat :: c.Succeeds(i)
                   && api.stored.value.status.backends == map[c.names[i] := EMPTY_INFO.(bucket := AVAILABLE)]
  {
    var cr := api.stored.value;
    var bucket := new Bucket(cr);
    var names := GetBucketProvidersFilterDisabledLabel(bucket, allNames);
    var input := C.Input(names, RepliesFor(hasClient, names), RepliesFor(n => BC.ResultOf(answer(n)), names));
    c, run, err := input, [], None;
    if cr.spec.disabled { return; }
    if |allNames| == 0 { err := Some(NoBackendsStored); return; }
    if |names| == 0 { err := Some(AllBackendsDisabled); return; }

    var end, createErr;
    end, createErr, run := RaceToCreate(input);
    AnswersDecide(c, hasClient, answer);
    var apiErr := WriteCreateResult(api, names, end);
    if apiErr.Some? {
      err := Some(ApiFailure(apiErr.value));
    } else if end.FellThrough? && createErr.Some? {
      err := Some(BackendFailure(createErr.value));
    }
  }

  lemma AnswersDecide(c: C.Input, hasClient: string -> bool, answer: string -> BC.Answer)
    requires c.Valid() && c.hasClient == RepliesFor(hasClient, c.names)
    requires c.results == RepliesFor(n => BC.ResultOf(answer(n)), c.names)
    ensures (exists i :: c.Succeeds(i)) <==> exists n :: n in c.names && hasClient(n) && answer(n).Created?
  {
    if n :| n in c.names && hasClient(n) && answer(n).Created? {
      var i :| 0 <= i < |c.names| && c.names[i] == n;
      assert c.Succeeds(i);
    }
    if i :| c.Succeeds(i) { assert c.names[i] in c.names; }
  }

  /** Any number of rounds of Create and Observe for a bucket that no backend
      creates, say because it exists everywhere: it is never recorded, and every
      Observe says again that it does not exist. */
  method CreateAndObserve(api: Server, allNames: seq<string>, hasClient: string -> bool,
                          answer: (nat, string) -> BC.Answer, head: (nat, string) -> Result<bool, string>, rounds: nat)
    returns (observed: seq<Result<Observing.ExternalObservation, string>>)
    requires api.stored.Some? && !api.stored.value.spec.disabled && api.stored.value.status.backends == map[]
    requires allNames != [] && forall k, n :: hasClient(n) ==> !answer(k, n).Created?
    modifies api
    ensures api.stored.Some? && api.stored.value.status.backends == map[]
    ensures |observed| == rounds
    ensures forall k :: 0 <= k < rounds ==> observed[k] == Ok(Observing.ExternalObservation(false, true))
  {
    observed := [];
    for k := 0 to rounds
      invariant api.stored.Some? && !api.stored.value.spec.disabled && api.stored.value.status.backends == map[]
      invariant |observed| == k
      invariant forall j :: 0 <= j < k ==> observed[j] == Ok(Observing.ExternalObservation(false, true))
    {
      var _, _, _ := Create(api, allNames, hasClient, n => answer(k, n));
      var cr := api.stored.value;
      var targets := Chosen(cr.labels, if cr.spec.providers == [] then allNames else cr.spec.providers);
      var heads := map n | n in allNames && n in targets :: head(k, n);
      var r := Observing.Observe(cr, Observing.World(allNames, [], heads, false));
      observed := observed + [r];
    }
  }

  /** The goroutines and the receiver, up to the receiver's return. */
  method RaceToCreate(c: C.Input) returns (end: C.Main, createErr: Option<string>, ghost run: seq<C.Event>)
    requires c.Valid()
    ensures C.Run(c, run).Some? && C.Run(c, run).value.main == end && C.Run(c, run).value.createErr == createErr
    ensures end.Returned()
    ensures end.Ready? ==> exists i: nat :: c.Succeeds(i) && c.names[i] == end.backend
    ensures C.Expire !in run ==> (end.Ready? <==> exists i :: c.Succeeds(i))
  {
    var s := C.Init(c);
    run := [];
    C.ReachableInv(c, run, s);
    while !s.main.Returned()
      invariant C.Run(c, run) == Some(s) && C.Inv(c, s)
      decreases C.Rank(c, s)
    {
      var e := ScheduleCreate(c, s);
      C.StepRank(c, s, e);
      assert (run + [e])[..|run|] == run;
      run := run + [e];
      s := C.Apply(c, s, e);
      C.ReachableInv(c, run, s);
    }
    end, createErr := s.main, s.createErr;
    if end.Ready? { C.ReadyIsCreated(c, run, s); }
    if C.Expire !in run { C.ReturnedWithoutExpiry(c, run, s); }
  }

  // --- Delete ------------------------------------------------------------------

  /** Any event of Delete's own goroutines that can happen now. */
  method ScheduleDelete(c: DeleteProtocol.Input, s: DeleteProtocol.State) returns (e: DeleteProtocol.Event)
    requires c.Valid() && DeleteProtocol.Inv(c, s) && !DeleteProtocol.Done(c, s)
    ensures DeleteProtocol.Enabled(c, s, e) && !e.UserWrites?
  {
    var main: bool := *;
    if s.next < |c.names| && (main || forall i :: 0 <= i < s.next ==> s.threads[i].Returned? || s.threads[i].Skipped?) {
      return DeleteProtocol.Start;
    }
    var i: nat :| i < |s.threads| && DeleteProtocol.Going(s.threads[i]);
    e := DeleteProtocol.OwnEvent(s, i);
  }

  /** Delete's fan-out, with users writing objects in between: it ends, and
      leaves the table, the stores and the error of some run. */
  method DeleteOnBackends(c: DeleteProtocol.Input, bb: B.BucketBackends, name: string)
    returns (firstErr: Option<DeleteProtocol.DeleteError>, stores: DeleteProtocol.Stores,
             ghost run: seq<DeleteProtocol.Event>)
    requires c.Valid() && bb.Of(name) == map[]
    modifies bb
    ensures DeleteProtocol.Run(c, run).Some? && DeleteProtocol.Done(c, DeleteProtocol.Run(c, run).value)
    ensures var s := DeleteProtocol.Run(c, run).value;
            bb.Of(name) == s.table && firstErr == s.firstErr && stores == s.stores
  {
    var s := DeleteProtocol.Init(c);
    run := [];
    var userWrites: nat := *;
    DeleteProtocol.ReachableInv(c, run, s);
    while !DeleteProtocol.Done(c, s)
      invariant DeleteProtocol.Run(c, run) == Some(s) && DeleteProtocol.Inv(c, s) && bb.Of(name) == s.table
      decreases DeleteProtocol.Rank(s), userWrites
    {
      var e;
      var byUser: bool := *;
      if byUser && userWrites > 0 && s.stores != map[] {
        var b :| b in s.stores;
        var objects: set<nat> := *;
        e := DeleteProtocol.UserWrites(b, objects);
        userWrites := userWrites - 1;
      } else {
        e := ScheduleDelete(c, s);
        DeleteProtocol.StepRank(c, s, e);
      }
      match e {
        case Start =>
          if c.names[s.next] in c.recorded { bb.SetBucketCondition(name, c.names[s.next], DELETING); }
        case Record(i) =>
          if s.threads[i].result.Some? {
            bb.SetBucketCondition(name, c.names[i], DELETING.WithMessage(s.threads[i].result.value.Message()));
          } else {
            bb.RemoveBackend(name, c.names[i]);
          }
        case _ =>
      }
      assert (run + [e])[..|run|] == run;
      run := run + [e];
      s := DeleteProtocol.Step(c, s, e);
      DeleteProtocol.ReachableInv(c, run, s);
    }
    firstErr, stores := s.firstErr, s.stores;
  }

  /** The enabled backends in the order in which the label map yields them. */
  method EnabledNames(bucket: Bucket) returns (names: seq<string>)
    ensures NoDuplicates(names) && Elements(names) == EnabledBackends(bucket.labels)
  {
    var labels := GetAllBackendLabels(bucket);
    names := [];
    var todo := labels.Keys;
    while todo != {}
      invariant todo <= labels.Keys
      invariant NoDuplicates(names) && forall n :: n in names <==> n in labels.Keys && n !in todo
    {
      var n :| n in todo;
      todo := todo - {n};
      names := names + [n];
    }
    assert Elements(names) == labels.Keys;
  }

  /** The backend's answers, by name. */
  function RepliesFor<T>(answers: string -> T, names: seq<string>): seq<T> {
    seq(|names|, i requires 0 <= i < |names| => answers(names[i]))
  }

  /** Delete's own answer: nil after full success and also for "not empty", which
      is not to be tried again; otherwise the first error of the goroutines. */
  ghost predicate DeleteAnswers(d: DisabledRuns.Deletion, err: Option<ReconcileError>) {
    if !d.backendsStored then err == Some(NoBackendsStored)
    else
      && d.input.Valid() && DeleteProtocol.Run(d.input, d.run).Some?
      && (Refused(err) <==> !d.flagWritten) && (d.flagWritten ==> d.statusWritten)
      && (!Refused(err) ==>
            match DeleteProtocol.Run(d.input, d.run).value.firstErr
            case None => err.None?
            case Some(NotEmpty) => err.None?
            case Some(Other(m)) => err == Some(BackendFailure(m)))
  }

  /** Delete is one deletion step of the reconciler's runs, whatever the
      scheduler, the users, the backends and the API server do. */
  method Delete(api: Server, stores: DeleteProtocol.Stores, answers: string -> DeleteProtocol.Reply,
                backendsStored: bool, minReplicas: nat)
    returns (err: Option<ReconcileError>, left: DeleteProtocol.Stores, ghost d: DisabledRuns.Deletion)
    requires api.stored.Some?
    modifies api
    ensures api.stored.Some?
    ensures DisabledRuns.Deletes(DisabledRuns.World(old(api.stored.value), stores), d,
                                 DisabledRuns.World(api.stored.value, left))
    ensures d.input.Valid() && d.input.replies == RepliesFor(answers, d.input.names)
    ensures d.backendsStored == backendsStored && DeleteAnswers(d, err)
    ensures Refused(err) <==> !AllAccepted(api.accepts, old(api.calls), api.calls)
  {
    var cr := api.stored.value;
    var bucket := new Bucket(cr);
    var names := EnabledNames(bucket);
    var input := DeleteProtocol.Input(names, cr.status.backends.Keys, RepliesFor(answers, names), stores);
    if !backendsStored {
      d := DisabledRuns.Deletion(false, input, [], minReplicas, false, false);
      return Some(NoBackendsStored), stores, d;
    }
    var bb := new B.BucketBackends();
    var firstErr;
    ghost var run;
    firstErr, left, run := DeleteOnBackends(input, bb, cr.name);
    ghost var s := DeleteProtocol.Run(input, run).value;
    var apiErr, deleteErr := WriteDeleteResult(api, bb, cr.name, names, minReplicas, firstErr);
    if apiErr.Some? {
      d := DisabledRuns.Deletion(true, input, run, minReplicas, api.stored != old(api.stored), false);
      return Some(ApiFailure(apiErr.value)), left, d;
    }
    d := DisabledRuns.Deletion(true, input, run, minReplicas, true, true);
    err := if deleteErr.Some? then Some(BackendFailure(deleteErr.value.Message())) else None;
  }

  // --- Create, then Delete before any Update --------------------------------------

  function CreatedOn(c: C.Input): set<string>
    requires c.Valid()
  {
    set i | 0 <= i < |c.names| && c.Succeeds(i) :: c.names[i]
  }

  /** Create recorded the first backend only, so an error-free Delete removes the
      bucket from that one and from no other. */
  lemma DeleteAfterCreate(before: CR, after: CR, names: seq<string>, providers: seq<string>, first: string,
                          stores: DeleteProtocol.Stores, d: DisabledRuns.Deletion, v: DisabledRuns.World)
    requires CreateWritten(C.Ready(first), names, before, after)
    requires names == Chosen(before.labels, providers) && first in names
    requires DisabledRuns.Deletes(DisabledRuns.World(after, stores), d, v) && d.backendsStored && d.statusWritten
    requires DeleteProtocol.Run(d.input, d.run).value.firstErr.None?
    ensures v.stores.Keys == stores.Keys - {first}
    ensures v.cr.status.backends == map[] && v.cr.spec == after.spec && v.cr.beingDeleted == after.beingDeleted
  {
    ChosenBecomeEnabled(before.labels, providers, first);
    DisabledRuns.SuccessfulDeletion(DisabledRuns.World(after, stores), d, v);
    DeleteProtocol.SuccessRemovesAttempted(d.input, d.run, DeleteProtocol.Run(d.input, d.run).value);
    assert Elements(d.input.names) * d.input.recorded == {first};
  }

  lemma LeftBehind(c: C.Input, first: string, left: DeleteProtocol.Stores)
    requires c.Valid() && left.Keys == CreatedOn(c) - {first}
    ensures left != map[] <==> exists i :: c.Succeeds(i) && c.names[i] != first
  {
    assert left != map[] <==> left.Keys != {};
    if i :| c.Succeeds(i) && c.names[i] != first { assert c.names[i] in left.Keys; }
    if b :| b in left.Keys { assert b in CreatedOn(c) && b != first; }
  }

  /** So after Create and an error-free Delete, with no Update in between, Observe
      says "does not exist", and yet some backend still holds the bucket exactly
      when Create succeeded on another backend than the one it recorded. */
  method ObserveAfterCreateAndDelete(ghost c: C.Input, ghost before: CR, ghost after: CR, ghost providers: seq<string>,
                                     ghost first: string, ghost stores: DeleteProtocol.Stores,
                                     ghost d: DisabledRuns.Deletion, v: DisabledRuns.World, w: Observing.World)
    returns (r: Result<Observing.ExternalObservation, string>)
    requires c.Valid() && c.names == Chosen(before.labels, providers) && first in CreatedOn(c)
    requires CreateWritten(C.Ready(first), c.names, before, after) && stores.Keys == CreatedOn(c)
    requires DisabledRuns.Deletes(DisabledRuns.World(after, stores), d, v) && d.backendsStored && d.statusWritten
    requires DeleteProtocol.Run(d.input, d.run).value.firstErr.None?
    requires Observing.WellFormed(v.cr, w) && (after.spec.disabled ==> after.beingDeleted)
    ensures r.Ok? ==> !r.value.exists_
    ensures v.stores != map[] <==> exists i :: c.Succeeds(i) && c.names[i] != first
  {
    DeleteAfterCreate(before, after, c.names, providers, first, stores, d, v);
    LeftBehind(c, first, v.stores);
    r := Observing.Observe(v.cr, w);
  }

  // --- Update ------------------------------------------------------------------

  /** Update on a CR that is not disabled.  If it leaves the CR paused where it
      was not, then on every target backend, in this very run, the bucket was
      found or recreated, every enabled sub-resource has its wanted value and
      the backend was not unhealthy. */
  method UpdateEnabled(api: Server, allNames: seq<string>, answers: string -> UpdateProtocol.Reply,
                       kinds: seq<SubResources.Kind>, recreate: bool, minReplicas: nat, autopauseEnabled: bool)
    returns (err: Option<ReconcileError>, ghost c: UpdateProtocol.Input, ghost run: seq<FanOut.Event>)
    requires api.stored.Some? && !api.stored.value.spec.disabled && NoDuplicates(kinds)
    modifies api
    ensures api.stored.Some? && c.Valid()
    ensures c.names == Chosen(old(api.stored.value.labels),
              if old(api.stored.value.spec.providers) == [] then allNames else old(api.stored.value.spec.providers))
    ensures c.spec == old(api.stored.value.spec) && c.kinds == kinds && c.replies == RepliesFor(answers, c.names)
    ensures allNames == [] || c.names == [] ==> err == Some(NothingToDo(allNames)) && api.stored == old(api.stored)
    ensures Refused(err) <==> !AllAccepted(api.accepts, old(api.calls), api.calls)
    ensures PauseExplained(c, old(api.stored.value), api.stored.value, minReplicas, allNames)
    ensures allNames != [] && c.names != [] && !Refused(err) ==>
              Completed(c, run, err, old(api.stored.value), api.stored.value, minReplicas, allNames, autopauseEnabled)
  {
    var bucket := new Bucket(api.stored.value);
    var names := GetBucketProvidersFilterDisabledLabel(bucket, allNames);
    var input := UpdateProtocol.Input(names, RepliesFor(answers, names), bucket.spec, kinds, recreate);
    c, run := input, [];
    if |allNames| == 0 { return Some(NoBackendsStored), c, run; }
    if |names| == 0 { return Some(AllBackendsDisabled), c, run; }
    err, run := UpdateChosen(api, input, allNames, minReplicas, autopauseEnabled);
  }

  /** The rest of it, once the backends are chosen. */
  method UpdateChosen(api: Server, c: UpdateProtocol.Input, allNames: seq<string>, minReplicas: nat,
      autopauseEnabled: bool)
    returns (err: Option<ReconcileError>, ghost run: seq<FanOut.Event>)
    requires api.stored.Some? && c.Valid() && c.spec == api.stored.value.spec
    modifies api
    ensures api.stored.Some?
    ensures Refused(err) <==> !AllAccepted(api.accepts, old(api.calls), api.calls)
    ensures PauseExplained(c, old(api.stored.value), api.stored.value, minReplicas, allNames)
    ensures !Refused(err) ==>
              Completed(c, run, err, old(api.stored.value), api.stored.value, minReplicas, allNames, autopauseEnabled)
  {
    var cr := api.stored.value;
    var bb := new B.BucketBackends();
    var updateErr;
    updateErr, run := UpdateProtocol.UpdateOnAllBackends(c, bb, cr.name);
    var clients := set n | n in allNames && n in c.names;
    var apiErr := WriteUpdateResult(api, bb, cr.name, c.names, clients, minReplicas, autopauseEnabled);
    if apiErr.Some? { return Some(ApiFailure(apiErr.value)), run; }
    UpdatePauseCause(c, run, cr, api.stored.value, minReplicas, clients, autopauseEnabled, allNames);
    UpdateProtocol.UpdateErrorExactly(c, run, FanOut.Run(UpdateProtocol.Plan(c), run).value);
    err := if updateErr.Some? then Some(BackendFailure(updateErr.value)) else None;
  }

  /** The goroutines all returned; Update returns no error exactly if no call
      failed on any backend with a client, else that of such a backend, and the
      CR changed in nothing but its status and labels, which are what the table
      of the run determines. */
  ghost predicate Completed(c: UpdateProtocol.Input, run: seq<FanOut.Event>, err: Option<ReconcileError>,
                            before: CR, after: CR, minReplicas: nat, allNames: seq<string>, autopauseEnabled: bool)
    requires c.Valid()
  {
    var end := FanOut.Run(UpdateProtocol.Plan(c), run);
    && end.Some? && FanOut.Done(UpdateProtocol.Plan(c), end.value)
    && err == (if end.value.firstErr.Some? then Some(BackendFailure(end.value.firstErr.value)) else None)
    && (err.None? <==> forall i :: 0 <= i < |c.names| ==> !UpdateProtocol.FailsOn(c, i))
    && (err.Some? ==> exists i :: UpdateProtocol.FailsWith(c, i, end.value.firstErr))
    && after == before.(status := after.status, labels := after.labels)
    && IsStatusAfter(before.status, after.status, end.value.table, c.names, minReplicas)
    && after.labels == LabelsAfterUpdate(before.spec, before.labels, after.status, c.names,
                                         (set n | n in allNames && n in c.names), end.value.table, autopauseEnabled)
  }

  /** Update: a disabled CR takes the deletion flow, any other is updated. */
  method Update(api: Server, allNames: seq<string>, answers: string -> UpdateProtocol.Reply,
                kinds: seq<SubResources.Kind>, recreate: bool, minReplicas: nat, autopauseEnabled: bool,
                stores: DeleteProtocol.Stores, deleteAnswers: string -> DeleteProtocol.Reply)
    returns (err: Option<ReconcileError>, left: DeleteProtocol.Stores,
             ghost c: UpdateProtocol.Input, ghost run: seq<FanOut.Event>, ghost d: Option<DisabledRuns.Deletion>)
    requires api.stored.Some? && NoDuplicates(kinds)
    modifies api
    ensures api.stored.Some? && c.Valid()
    ensures old(api.stored.value.spec.disabled) ==>
              d.Some? && DisabledRuns.Deletes(DisabledRuns.World(old(api.stored.value), stores), d.value,
                                              DisabledRuns.World(api.stored.value, left))
    ensures !old(api.stored.value.spec.disabled) ==>
              PauseExplained(c, old(api.stored.value), api.stored.value, minReplicas, allNames)
    ensures !old(api.stored.value.spec.disabled) && allNames != [] && c.names != []
            && !Refused(err) ==>
              Completed(c, run, err, old(api.stored.value), api.stored.value, minReplicas, allNames, autopauseEnabled)
    ensures !old(api.stored.value.spec.disabled) && (allNames == [] || c.names == []) ==>
              err == Some(NothingToDo(allNames)) && api.stored == old(api.stored)
    ensures old(api.stored.value.spec.disabled) ==> DeleteAnswers(d.value, err)
    ensures Refused(err) <==> !AllAccepted(api.accepts, old(api.calls), api.calls)
  {
    left, run, d := stores, [], None;
    c := UpdateProtocol.Input([], [], api.stored.value.spec, kinds, recreate);
    if api.stored.value.spec.disabled {
      ghost var deletion;
      err, left, deletion := Delete(api, stores, deleteAnswers, allNames != [], minReplicas);
      d := Some(deletion);
    } else {
      err, c, run := UpdateEnabled(api, allNames, answers, kinds, recreate, minReplicas, autopauseEnabled);
    }
  }

  /** What a newly set pause label tells about the run that set it. */
  ghost predicate PauseExplained(c: UpdateProtocol.Input, before: CR, after: CR, minReplicas: nat,
      allNames: seq<string>)
    requires c.Valid()
  {
    PauseLabel(before.labels) != TRUE_STR && PauseLabel(after.labels) == TRUE_STR ==>
      && NoDuplicates(c.names) && |c.names| >= minReplicas
      && ConditionsMatch(c.spec, after.status.backends, c.names)
      && forall i :: 0 <= i < |c.names| ==> c.names[i] in allNames && UpdateProtocol.Reconciled(c, c.replies[i])
  }

  lemma UpdatePauseCause(c: UpdateProtocol.Input, run: seq<FanOut.Event>, before: CR, after: CR, minReplicas: nat,
                         clients: set<string>, autopauseEnabled: bool, allNames: seq<string>)
    requires c.Valid() && c.spec == before.spec && clients <= Elements(allNames)
    requires FanOut.Run(UpdateProtocol.Plan(c), run).Some?
             && FanOut.Done(UpdateProtocol.Plan(c), FanOut.Run(UpdateProtocol.Plan(c), run).value)
    requires var table := FanOut.Run(UpdateProtocol.Plan(c), run).value.table;
             && IsStatusAfter(before.status, after.status, table, c.names, minReplicas)
             && after.labels == LabelsAfterUpdate(c.spec, before.labels, after.status, c.names, clients, table,
                  autopauseEnabled)
    ensures PauseExplained(c, before, after, minReplicas, allNames)
  {
    var s := FanOut.Run(UpdateProtocol.Plan(c), run).value;
    if PauseLabel(before.labels) != TRUE_STR && PauseLabel(after.labels) == TRUE_STR {
      UpdateLabelCause(c.spec, before.labels, after.status, c.names, clients, s.table, autopauseEnabled);
      UpdateProtocol.PauseImpliesReconciled(c, run, s, before.status, after.status, before.labels, minReplicas,
          clients, autopauseEnabled);
    }
  }

  /** Only a required pause turns the label to "true". */
  lemma UpdateLabelCause(spec: Spec, labels: Labels, status: Status, names: seq<string>, clients: set<string>,
                         table: Backends, autopause: bool)
    requires PauseLabel(LabelsAfterUpdate(spec, labels, status, names, clients, table, autopause)) == TRUE_STR
    requires PauseLabel(labels) != TRUE_STR
    ensures PauseRequired(spec, labels, status, names, clients, table, autopause)
  {
    InLabelsOf(names, PAUSED_LABEL);
    if n :| n in names && PAUSED_LABEL == Label(n) { PausedIsNoBackendLabel(n); }
  }

  // --- Update, then Observe --------------------------------------------------------

  /** What the goroutines of one client's fan-in would send right after the run. */
  function MessagesAfter(c: UpdateProtocol.Input, k: SubResources.Kind, unhealthy: seq<bool>): seq<FanIn.Message>
    requires c.Valid() && |unhealthy| == |c.names|
  {
    seq(|c.names|, i requires 0 <= i < |c.names| =>
      FanIn.MessageOf(unhealthy[i], None,
        SubResources.ObserveBackend(k, c.spec,
          SubResources.DoUpdate(c.kinds, c.spec, c.replies[i].Held(c.spec), c.replies[i].handlers).config)))
  }

  /** The ACL client's receive loop is the one that does not select on the context. */
  function FanInAfter(c: UpdateProtocol.Input, k: SubResources.Kind, unhealthy: seq<bool>): FanIn.Input
    requires c.Valid() && |unhealthy| == |c.names|
  {
    FanIn.Input(MessagesAfter(c, k, unhealthy), !k.Acl?, SubResources.ObserveContext(k))
  }

  /** The run reconciled every backend, and the part settles on each. */
  predicate Settled(c: UpdateProtocol.Input, k: SubResources.Kind)
    requires c.Valid()
  {
    forall i :: 0 <= i < |c.names| ==>
      UpdateProtocol.Reconciled(c, c.replies[i]) && SubResources.Settles(k, c.spec, c.replies[i].Held(c.spec))
  }

  /** After an update that reconciled every backend, the next fan-in of a client
      whose part settles answers (Updated, nil), in every order of messages. */
  lemma UpdateThenQuiet(c: UpdateProtocol.Input, k: SubResources.Kind, unhealthy: seq<bool>, run: seq<FanIn.Event>,
      s: FanIn.State)
    requires c.Valid() && k in c.kinds && |unhealthy| == |c.names| && !(k.Lock? && !c.spec.LockEnabled())
    requires Settled(c, k)
    requires FanIn.Run(FanInAfter(c, k, unhealthy), run) == Some(s)
    requires (FanIn.Expire !in run || k.Acl?) && s.answer.Some?
    ensures s.answer == Some(FanIn.QUIET)
  {
    var messages := MessagesAfter(c, k, unhealthy);
    forall i | 0 <= i < |messages| ensures messages[i].Quiet() {
      var r := c.replies[i];
      SubResources.ConvergedQuiet(k, c.spec, r.Held(c.spec),
          SubResources.DoUpdate(c.kinds, c.spec, r.Held(c.spec), r.handlers).config);
    }
    FanIn.FanInExact(FanInAfter(c, k, unhealthy), run, s);
  }

  /** What the client answers right after the run, whichever backends are marked
      unhealthy by then and in whatever order the messages come; the lock client
      of an unlocked bucket asks nobody. */
  ghost predicate AnswersAfter(c: UpdateProtocol.Input, k: SubResources.Kind, a: FanIn.Answer)
    requires c.Valid()
  {
    if k.Lock? && !c.spec.LockEnabled() then a == FanIn.QUIET
    else exists unhealthy: seq<bool>, run: seq<FanIn.Event> :: AnswersIn(c, k, a, unhealthy, run)
  }

  predicate AnswersIn(c: UpdateProtocol.Input, k: SubResources.Kind, a: FanIn.Answer, unhealthy: seq<bool>,
      run: seq<FanIn.Event>)
    requires c.Valid()
  {
    && |unhealthy| == |c.names| && (FanIn.Expire !in run || k.Acl?)
    && FanIn.Run(FanInAfter(c, k, unhealthy), run).Some?
    && FanIn.Run(FanInAfter(c, k, unhealthy), run).value.answer == Some(a)
  }

  lemma AllQuiet(c: UpdateProtocol.Input, k: SubResources.Kind, a: FanIn.Answer)
    requires c.Valid() && k in c.kinds && AnswersAfter(c, k, a) && Settled(c, k)
    ensures a == FanIn.QUIET
  {
    if !(k.Lock? && !c.spec.LockEnabled()) {
      var unhealthy, run :| AnswersIn(c, k, a, unhealthy, run);
      UpdateThenQuiet(c, k, unhealthy, run, FanIn.Run(FanInAfter(c, k, unhealthy), run).value);
    }
  }

  /** The same backends are chosen after the run's label write, if no enabled
      backend's bare name is a label key. */
  lemma SameTargets(c: UpdateProtocol.Input, labels: Labels, status: Status, providers: seq<string>,
                    clients: set<string>, table: Backends, autopause: bool)
    requires c.names == Chosen(labels, providers)
    requires NoBareNameIsKey(labels) && PAUSED_LABEL !in EnabledBackends(labels)
    ensures Chosen(LabelsAfterUpdate(c.spec, labels, status, c.names, clients, table, autopause), providers) == c.names
  {
    var mid := if PauseRequired(c.spec, labels, status, c.names, clients, table, autopause)
               then labels[PAUSED_LABEL := TRUE_STR] else labels;
    forall n | n in providers ensures DisabledByLabel(mid, n) <==> DisabledByLabel(labels, n) {
      PausedIsNoBackendLabel(n);
    }
    SameChoice(labels, mid, providers);
    forall b ensures b in EnabledBackends(mid) <==> b in EnabledBackends(labels) {
      EnabledByLabel(labels, b);
      EnabledByLabel(mid, b);
      PausedIsNoBackendLabel(b);
    }
    SetAllOnlyAdds(mid, providers);
  }

  /** The run met the quota on distinct backends, succeeded on all of them, and
      nothing stands in the way of a pause that is asked for. */
  ghost predicate FullyUpdated(c: UpdateProtocol.Input, before: CR, minReplicas: nat, allNames: seq<string>,
      autopause: bool)
    requires c.Valid()
  {
    && !before.spec.disabled && c.spec == before.spec
    && c.names == Chosen(before.labels, if before.spec.providers == [] then allNames else before.spec.providers)
    && c.names != [] && NoDuplicates(c.names) && |c.names| >= minReplicas
    && (forall i :: 0 <= i < |c.names| ==> c.names[i] in allNames && UpdateProtocol.Succeeded(c, c.replies[i]))
    && (before.spec.autoPause || autopause ==> UpdateProtocol.Fits(c) && PauseLabel(before.labels) in {"", TRUE_STR})
    && NoBareNameIsKey(before.labels) && PAUSED_LABEL !in EnabledBackends(before.labels)
  }

  /** Then the CR is recorded available on all its targets, and paused if asked. */
  lemma RecordedInOrder(c: UpdateProtocol.Input, run: seq<FanOut.Event>, err: Option<ReconcileError>,
                        before: CR, after: CR, minReplicas: nat, allNames: seq<string>, autopause: bool)
    requires c.Valid() && Completed(c, run, err, before, after, minReplicas, allNames, autopause)
    requires FullyUpdated(c, before, minReplicas, allNames, autopause)
    ensures after.status.GetCondition(Ready) == AVAILABLE
    ensures forall n :: n in c.names ==> n in after.status.backends && after.status.backends[n].bucket == AVAILABLE
    ensures before.spec.autoPause || autopause ==> PauseLabel(after.labels) == TRUE_STR
    ensures Chosen(after.labels, if before.spec.providers == [] then allNames else before.spec.providers) == c.names
  {
    var s := FanOut.Run(UpdateProtocol.Plan(c), run).value;
    var clients := set n | n in allNames && n in c.names;
    UpdateProtocol.SuccessRecorded(c, run, s);
    UpdateProtocol.ReadyAndSynced(c, s, before.status, after.status, minReplicas);
    UpdateProtocol.PauseExactly(c, run, s, before.status, after.status, before.labels, minReplicas, clients, autopause);
    UpdateMovesLabel(c.spec, before.labels, after.status, c.names, clients, s.table, autopause);
    SameTargets(c, before.labels, after.status, if before.spec.providers == [] then allNames else before.spec.providers,
                clients, s.table, autopause);
    StatusBackends(before.status, after.status, s.table, c.names, minReplicas);
    AllNamesRecorded(c, s.table);
  }

  lemma AllNamesRecorded(c: UpdateProtocol.Input, table: Backends)
    requires c.Valid() && UpdateProtocol.AllRecorded(c, table)
    ensures forall n :: n in c.names ==> n in table && table[n].bucket == AVAILABLE
  {
    forall n | n in c.names ensures n in table && table[n].bucket == AVAILABLE {
      var i: nat :| i < |c.names| && c.names[i] == n;
      assert UpdateProtocol.RecordedAt(c, table, i);
    }
  }

  predicate EveryPartSettles(c: UpdateProtocol.Input)
    requires c.Valid()
  {
    forall k, i :: k in c.kinds && 0 <= i < |c.names| ==> SubResources.Settles(k, c.spec, c.replies[i].Held(c.spec))
  }

  ghost predicate ClientsAnswer(c: UpdateProtocol.Input, answers: seq<FanIn.Answer>)
    requires c.Valid()
  {
    |answers| == |c.kinds| && forall j :: 0 <= j < |c.kinds| ==> AnswersAfter(c, c.kinds[j], answers[j])
  }

  lemma ClientsQuiet(c: UpdateProtocol.Input, answers: seq<FanIn.Answer>)
    requires c.Valid() && EveryPartSettles(c) && ClientsAnswer(c, answers)
    requires forall i :: 0 <= i < |c.names| ==> UpdateProtocol.Succeeded(c, c.replies[i])
    ensures forall j :: 0 <= j < |answers| ==> answers[j] == FanIn.QUIET
  {
    forall i | 0 <= i < |c.names| ensures UpdateProtocol.Reconciled(c, c.replies[i]) {
      SubResources.PassConverges(c.kinds, c.spec, c.replies[i].Held(c.spec), c.replies[i].handlers);
    }
    forall j | 0 <= j < |answers| ensures answers[j] == FanIn.QUIET {
      assert c.kinds[j] in c.kinds && Settled(c, c.kinds[j]);
      AllQuiet(c, c.kinds[j], answers[j]);
    }
  }

  lemma InOrderUnlessMissing(c: UpdateProtocol.Input, run: seq<FanOut.Event>, err: Option<ReconcileError>, before: CR,
                             after: CR, minReplicas: nat, allNames: seq<string>, w: Observing.World)
    requires c.Valid() && Completed(c, run, err, before, after, minReplicas, allNames, w.autopauseEnabled)
    requires FullyUpdated(c, before, minReplicas, allNames, w.autopauseEnabled)
    requires w.backends == allNames && Observing.WellFormed(after, w)
    requires EveryPartSettles(c) && ClientsAnswer(c, w.subresources)
    ensures allNames != [] && Observing.Targets(after, w) != [] && after.status.backends != map[]
            && !after.spec.disabled
    ensures forall j :: 0 <= j < |w.subresources| ==> w.subresources[j].err.None?
    ensures Observing.InOrder(after, w) <==> forall n :: n in w.heads ==> w.heads[n] != Ok(false)
  {
    RecordedInOrder(c, run, err, before, after, minReplicas, allNames, w.autopauseEnabled);
    ClientsQuiet(c, w.subresources);
    NothingElseMissing(after, w);
  }

  lemma NothingElseMissing(cr: CR, w: Observing.World)
    requires Observing.WellFormed(cr, w) && Observing.Targets(cr, w) != []
    requires cr.status.GetCondition(Ready) == AVAILABLE
    requires cr.spec.autoPause || w.autopauseEnabled ==> PauseLabel(cr.labels) == TRUE_STR
    requires forall n :: n in Observing.Targets(cr, w) ==>
             n in cr.status.backends && cr.status.backends[n].bucket == AVAILABLE
    requires forall j :: 0 <= j < |w.subresources| ==> w.subresources[j] == FanIn.QUIET
    ensures cr.status.backends != map[]
    ensures Observing.InOrder(cr, w) <==> forall n :: n in w.heads ==> w.heads[n] != Ok(false)
  {
    assert Observing.Targets(cr, w)[0] in cr.status.backends;
  }

  /** The Observe that follows such an update, every enabled part settling, is
      error-free and says up to date unless a backend now misses the bucket: the
      loop of Update and Observe comes to rest. */
  method ObserveAfterUpdate(ghost c: UpdateProtocol.Input, ghost run: seq<FanOut.Event>,
                            ghost err: Option<ReconcileError>, ghost before: CR, after: CR, ghost minReplicas: nat,
                            allNames: seq<string>, w: Observing.World)
    returns (r: Result<Observing.ExternalObservation, string>)
    requires c.Valid() && Completed(c, run, err, before, after, minReplicas, allNames, w.autopauseEnabled)
    requires FullyUpdated(c, before, minReplicas, allNames, w.autopauseEnabled)
    requires w.backends == allNames && Observing.WellFormed(after, w)
    requires EveryPartSettles(c) && ClientsAnswer(c, w.subresources)
    ensures r.Ok? && r.value.exists_
    ensures r.value.upToDate <==> forall n :: n in w.heads ==> w.heads[n] != Ok(false)
  {
    InOrderUnlessMissing(c, run, err, before, after, minReplicas, allNames, w);
    r := Observing.Observe(after, w);
  }
}
