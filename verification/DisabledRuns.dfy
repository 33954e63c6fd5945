// Whole runs of the reconciler on a disabled Bucket CR: Observe, Create, Update
// and Delete in any order, each Delete under any schedule and with any failures
// (internal/controller/bucket/{observe,create,update,delete}.go).

module DisabledRuns {
  import opened Wrappers
  import opened Api
  import opened Labelling
  import opened BucketStatus
  import opened Sets
  import DeleteProtocol
  import Observing

  /** The stored CR and the buckets on the backends. */
  datatype World = World(cr: CR, stores: DeleteProtocol.Stores)

  /** One execution of the deletion flow. */
  datatype Deletion = Deletion(
    backendsStored: bool,
    input: DeleteProtocol.Input,
    run: seq<DeleteProtocol.Event>,
    minReplicas: nat,
    statusWritten: bool,
    flagWritten: bool)

  datatype Op =
    | Observe
    | Create                       // returns at once for a disabled CR
    | Update(ofUpdate: Deletion)   // goes through Delete for a disabled CR
    | Delete(ofDelete: Deletion)

  /** The deletion ran on this world and its goroutines have all returned. */
  ghost predicate Ran(w: World, d: Deletion) {
    && d.input.Valid() && d.input.stores == w.stores
    && Elements(d.input.names) == EnabledBackends(w.cr.labels)
    && d.input.recorded == w.cr.status.backends.Keys
    && DeleteProtocol.Run(d.input, d.run).Some?
    && DeleteProtocol.Done(d.input, DeleteProtocol.Run(d.input, d.run).value)
  }

  ghost predicate Deletes(w: World, d: Deletion, v: World) {
    if !d.backendsStored then v == w
    else
      && Ran(w, d)
      && var s := DeleteProtocol.Run(d.input, d.run).value;
      && v.stores == s.stores
      && if !d.statusWritten then v.cr == w.cr
         else
           && IsStatusAfter(w.cr.status, v.cr.status, s.table, d.input.names, d.minReplicas)
           && v.cr == w.cr.(status := v.cr.status,
                            spec := if s.firstErr == Some(DeleteProtocol.NotEmpty) && d.flagWritten
                                    then w.cr.spec.(disabled := false) else w.cr.spec)
  }

  ghost predicate Next(w: World, op: Op, v: World)
    requires w.cr.spec.disabled
  {
    match op
    case Observe => v == w
    case Create => v == w
    case Update(d) => Deletes(w, d, v)
    case Delete(d) => Deletes(w, d, v)
  }

  /** A run during which the CR is disabled whenever an operation starts. */
  ghost predicate IsRun(worlds: seq<World>, ops: seq<Op>) {
    && |worlds| == |ops| + 1
    && forall i :: 0 <= i < |ops| ==> worlds[i].cr.spec.disabled && Next(worlds[i], ops[i], worlds[i + 1])
  }

  lemma NextShrinks(w: World, op: Op, v: World)
    requires w.cr.spec.disabled && Next(w, op, v)
    ensures v.stores.Keys <= w.stores.Keys
  {
    if op.Update? || op.Delete? {
      var d := if op.Update? then op.ofUpdate else op.ofDelete;
      if d.backendsStored {
        DeleteProtocol.StoresShrink(d.input, d.run, DeleteProtocol.Run(d.input, d.run).value);
      }
    }
  }

  /** While the CR stays disabled the set of backends holding the bucket never
      grows. */
  lemma {:induction false} HoldersNeverGrow(worlds: seq<World>, ops: seq<Op>, i: nat, j: nat)
    requires IsRun(worlds, ops) && i <= j < |worlds|
    ensures worlds[j].stores.Keys <= worlds[i].stores.Keys
  {
    if i < j {
      HoldersNeverGrow(worlds, ops, i, j - 1);
      NextShrinks(worlds[j - 1], ops[j - 1], worlds[j]);
    }
  }

  /** One deletion without error whose status was written: nothing recorded is
      left, and every attempted bucket is gone. */
  lemma SuccessfulDeletion(w: World, d: Deletion, v: World)
    requires Deletes(w, d, v) && d.backendsStored && d.statusWritten
    requires DeleteProtocol.Run(d.input, d.run).value.firstErr.None?
    ensures v.cr.status.backends == map[] && v.cr.spec == w.cr.spec
    ensures forall n :: n in EnabledBackends(w.cr.labels) && n in w.cr.status.backends ==> n !in v.stores
  {
    var s := DeleteProtocol.Run(d.input, d.run).value;
    DeleteProtocol.StatusAfterDelete(d.input, d.run, s, w.cr.status, v.cr.status, d.minReplicas);
    forall n | n in EnabledBackends(w.cr.labels) && n in w.cr.status.backends ensures n !in v.stores {
      assert n in Elements(d.input.names);
    }
  }

  lemma NextStaysSettled(w: World, op: Op, v: World)
    requires w.cr.spec.disabled && w.cr.status.backends == map[] && Next(w, op, v)
    ensures v.cr.spec == w.cr.spec && v.cr.status.backends == map[] && v.cr.beingDeleted == w.cr.beingDeleted
    ensures v.stores.Keys == w.stores.Keys
  {
    if op.Update? || op.Delete? {
      var d := if op.Update? then op.ofUpdate else op.ofDelete;
      if d.backendsStored {
        var s := DeleteProtocol.Run(d.input, d.run).value;
        assert d.input.recorded == {};
        DeleteProtocol.NothingAttempted(d.input, d.run, s);
        if d.statusWritten {
          StatusBackends(w.cr.status, v.cr.status, s.table, d.input.names, d.minReplicas);
        }
      }
    }
  }

  /** From then on nothing moves: whatever the reconciler does, the status stays
      empty, the CR stays disabled and no backend's bucket comes or goes. */
  lemma {:induction false} SettledForGood(worlds: seq<World>, ops: seq<Op>, i: nat)
    requires IsRun(worlds, ops) && i < |worlds|
    requires worlds[0].cr.spec.disabled && worlds[0].cr.status.backends == map[]
    ensures worlds[i].cr.spec == worlds[0].cr.spec && worlds[i].cr.status.backends == map[]
    ensures worlds[i].cr.beingDeleted == worlds[0].cr.beingDeleted
    ensures worlds[i].stores.Keys == worlds[0].stores.Keys
  {
    if i > 0 {
      SettledForGood(worlds, ops, i - 1);
      NextStaysSettled(worlds[i - 1], ops[i - 1], worlds[i]);
    }
  }

  /** An error-free Observe of a disabled CR that is not being deleted: the bucket
      "exists", and is up to date exactly when no backend is recorded. */
  method ObserveDisabled(cr: CR, w: Observing.World) returns (r: Result<Observing.ExternalObservation, string>)
    requires cr.spec.disabled && !cr.beingDeleted && Observing.WellFormed(cr, w)
    ensures r.Ok? ==> r.value.exists_ && (r.value.upToDate <==> cr.status.backends == map[])
  {
    r := Observing.Observe(cr, w);
  }

  /** An error-free Observe after a deletion whose status was written: "does not
      exist" exactly when every attempted deletion succeeded, unless the CR stays
      behind disabled; and then every attempted bucket is gone. */
  method ObserveAfterDeletion(ghost w: World, ghost d: Deletion, v: World, o: Observing.World)
    returns (r: Result<Observing.ExternalObservation, string>)
    requires Deletes(w, d, v) && d.backendsStored && d.statusWritten && Observing.WellFormed(v.cr, o)
    ensures r.Ok? ==>
              (!r.value.exists_ <==> NothingFailed(d) && !(v.cr.spec.disabled && !v.cr.beingDeleted))
    ensures r.Ok? && !r.value.exists_ ==>
              forall n :: n in EnabledBackends(w.cr.labels) && n in w.cr.status.backends ==> n !in v.stores
  {
    ghost var s := DeleteProtocol.Run(d.input, d.run).value;
    DeleteProtocol.StatusAfterDelete(d.input, d.run, s, w.cr.status, v.cr.status, d.minReplicas);
    DeleteProtocol.GroupErrorExactly(d.input, d.run, s);
    r := Observing.Observe(v.cr, o);
    if r.Ok? && !r.value.exists_ { SuccessfulDeletion(w, d, v); }
  }

  /** Every goroutine of the deletion returned nil. */
  ghost predicate NothingFailed(d: Deletion)
    requires d.input.Valid() && DeleteProtocol.Run(d.input, d.run).Some?
  {
    var threads := DeleteProtocol.Run(d.input, d.run).value.threads;
    forall i :: 0 <= i < |threads| ==> threads[i].Skipped? || threads[i] == DeleteProtocol.Returned(None)
  }
}
