// Delete (internal/controller/bucket/delete.go): one goroutine per enabled
// backend with a status entry deletes the bucket there, while users go on
// writing and removing objects.  A run is any interleaving of all of them.

module DeleteProtocol {
  import opened Wrappers
  import opened Api
  import opened BackendTable
  import opened BucketStatus
  import opened Sets
  import opened Sums

  datatype DeleteError = NotEmpty | Other(message: string) {
    function Message(): string {
      match this
      case NotEmpty => "bucket is not empty"
      case Other(m) => m
    }
  }

  /** The errors the calls of one goroutine meet, if any. */
  datatype Reply = Reply(clientErr: Option<string>, headErr: Option<string>, deleteErr: Option<string>)

  /** The buckets on the backends, by backend name, with their objects. */
  type Stores = map<string, set<nat>>

  /** The enabled backends in the order the label map yields them, those with an
      entry in the status, and what the backends answer. */
  datatype Input = Input(names: seq<string>, recorded: set<string>, replies: seq<Reply>, stores: Stores) {
    predicate Valid() { |replies| == |names| && NoDuplicates(names) }
  }

  datatype Thread =
    | NotStarted
    | Skipped                        // no status entry: deletion not attempted
    | GettingClient
    | Heading                        // inside BucketExists
    | Deleting                       // inside the S3 DeleteBucket call
    | Recording(result: Option<DeleteError>)
    | Returning(result: Option<DeleteError>)
    | Returned(result: Option<DeleteError>)

  datatype State = State(
    table: Backends, next: nat, threads: seq<Thread>, stores: Stores, firstErr: Option<DeleteError>)

  datatype Event =
    | Start
    | GetClient(i: nat)
    | Head(i: nat)
    | DeleteCall(i: nat)
    | Record(i: nat)
    | Return(i: nat)
    | UserWrites(backend: string, objects: set<nat>)

  function Init(c: Input): State
    requires c.Valid()
  {
    State(map[], 0, seq(|c.names|, _ => NotStarted), c.stores, None)
  }

  predicate Enabled(c: Input, s: State, e: Event)
    requires c.Valid() && |s.threads| == |c.names|
  {
    match e
    case Start => s.next < |c.names|
    case GetClient(i) => i < |c.names| && s.threads[i].GettingClient?
    case Head(i) => i < |c.names| && s.threads[i].Heading?
    case DeleteCall(i) => i < |c.names| && s.threads[i].Deleting?
    case Record(i) => i < |c.names| && s.threads[i].Recording?
    case Return(i) => i < |c.names| && s.threads[i].Returning?
    case UserWrites(b, _) => b in s.stores
  }

  /** rgw.DeleteBucket without force: a missing bucket is no error, a bucket
      with objects is refused. */
  function S3Delete(stores: Stores, backend: string, err: Option<string>): (Stores, Option<DeleteError>) {
    if err.Some? then (stores, Some(Other(err.value)))
    else if backend !in stores then (stores, None)
    else if stores[backend] != {} then (stores, Some(NotEmpty))
    else (stores - {backend}, None)
  }

  function Step(c: Input, s: State, e: Event): State
    requires c.Valid() && |s.threads| == |c.names| && Enabled(c, s, e)
  {
    match e
    case Start =>
      var i := s.next;
      if c.names[i] !in c.recorded then s.(next := i + 1, threads := s.threads[i := Skipped])
      else s.(next := i + 1, threads := s.threads[i := GettingClient],
              table := Apply(s.table, c.names[i], SetBucket(DELETING)))
    case GetClient(i) =>
      var err := c.replies[i].clientErr;
      s.(threads := s.threads[i := if err.Some? then Recording(Some(Other(err.value))) else Heading])
    case Head(i) =>
      var err := c.replies[i].headErr;
      s.(threads := s.threads[i := if err.Some? then Recording(Some(Other(err.value)))
                                   else if c.names[i] !in s.stores then Recording(None) else Deleting])
    case DeleteCall(i) =>
      var (stores, result) := S3Delete(s.stores, c.names[i], c.replies[i].deleteErr);
      s.(stores := stores, threads := s.threads[i := Recording(result)])
    case Record(i) =>
      var result := s.threads[i].result;
      s.(threads := s.threads[i := Returning(result)],
         table := Apply(s.table, c.names[i],
                        if result.Some? then SetBucket(DELETING.WithMessage(result.value.Message()))
                            else DeleteBackend))
    case Return(i) =>
      var result := s.threads[i].result;
      s.(threads := s.threads[i := Returned(result)], firstErr := if s.firstErr.None? then result else s.firstErr)
    case UserWrites(b, objects) => s.(stores := s.stores[b := objects])
  }

  function Run(c: Input, run: seq<Event>): (r: Option<State>)
    requires c.Valid()
    ensures r.Some? ==> |r.value.threads| == |c.names|
  {
    if run == [] then Some(Init(c))
    else
      var before := Run(c, run[..|run| - 1]);
      var last := run[|run| - 1];
      if before.Some? && Enabled(c, before.value, last) then Some(Step(c, before.value, last)) else None
  }

  predicate Done(c: Input, s: State) {
    s.next == |c.names| && forall i :: 0 <= i < |s.threads| ==> s.threads[i].Returned? || s.threads[i].Skipped?
  }

  // --- the invariant -----------------------------------------------------------

  /** The table entry that goes with a goroutine's position. */
  function EntryFor(t: Thread): Option<BackendInfo> {
    match t
    case NotStarted => None
    case Skipped => None
    case Returning(r) => FailureEntry(r)
    case Returned(r) => FailureEntry(r)
    case _ => Some(EMPTY_INFO.(bucket := DELETING))
  }

  function FailureEntry(result: Option<DeleteError>): Option<BackendInfo> {
    if result.None? then None
    else Some(EMPTY_INFO.(bucket := DELETING.WithMessage(result.value.Message())))
  }

  predicate Gone(t: Thread) {
    (t.Recording? || t.Returning? || t.Returned?) && t.result.None?
  }

  ghost predicate TableOk(c: Input, s: State)
    requires c.Valid() && |s.threads| == |c.names|
  {
    && s.table.Keys <= Elements(c.names)
    && forall i :: 0 <= i < |c.names| ==> Entry(s.table, c.names[i]) == EntryFor(s.threads[i])
  }

  ghost predicate PositionsOk(c: Input, s: State)
    requires c.Valid() && |s.threads| == |c.names|
  {
    && s.next <= |c.names|
    && forall i :: 0 <= i < |c.names| ==>
         && (s.threads[i].NotStarted? <==> i >= s.next)
         && (s.threads[i].Skipped? <==> i < s.next && c.names[i] !in c.recorded)
  }

  ghost predicate StoresOk(c: Input, s: State)
    requires c.Valid() && |s.threads| == |c.names|
  {
    && s.stores.Keys <= c.stores.Keys
    && forall i :: 0 <= i < |c.names| && Gone(s.threads[i]) ==> c.names[i] !in s.stores
  }

  ghost predicate ErrorOk(c: Input, s: State)
    requires c.Valid() && |s.threads| == |c.names|
  {
    && (s.firstErr.Some? ==> exists i :: 0 <= i < |c.names| && s.threads[i] == Returned(s.firstErr))
    && (s.firstErr.None? ==> forall i :: 0 <= i < |c.names| && s.threads[i].Returned? ==> s.threads[i].result.None?)
  }

  ghost predicate Inv(c: Input, s: State)
    requires c.Valid()
  {
    |s.threads| == |c.names| && PositionsOk(c, s) && TableOk(c, s) && StoresOk(c, s) && ErrorOk(c, s)
  }

  lemma StepTable(c: Input, s: State, e: Event)
    requires c.Valid() && |s.threads| == |c.names| && PositionsOk(c, s) && TableOk(c, s) && Enabled(c, s, e)
    ensures TableOk(c, Step(c, s, e))
  {
    var t := Step(c, s, e);
    if !e.UserWrites? {
      var i := if e.Start? then s.next else e.i;
      assert c.names[i] in Elements(c.names);
      forall j | 0 <= j < |c.names| ensures Entry(t.table, c.names[j]) == EntryFor(t.threads[j]) {
        if j != i { assert c.names[j] != c.names[i]; }
      }
    }
  }

  lemma StepPositions(c: Input, s: State, e: Event)
    requires c.Valid() && |s.threads| == |c.names| && PositionsOk(c, s) && Enabled(c, s, e)
    ensures PositionsOk(c, Step(c, s, e))
  {
  }

  lemma StepStores(c: Input, s: State, e: Event)
    requires c.Valid() && |s.threads| == |c.names| && StoresOk(c, s) && Enabled(c, s, e)
    ensures StoresOk(c, Step(c, s, e))
  {
  }

  lemma StepError(c: Input, s: State, e: Event)
    requires c.Valid() && |s.threads| == |c.names| && PositionsOk(c, s) && ErrorOk(c, s) && Enabled(c, s, e)
    ensures ErrorOk(c, Step(c, s, e))
  {
    var t := Step(c, s, e);
    if s.firstErr.Some? {
      var i :| 0 <= i < |c.names| && s.threads[i] == Returned(s.firstErr);
      assert t.threads[i] == Returned(t.firstErr);
    } else if e.Return? {
      assert t.threads[e.i] == Returned(s.threads[e.i].result);
    }
  }

  lemma StepInv(c: Input, s: State, e: Event)
    requires c.Valid() && Inv(c, s) && Enabled(c, s, e)
    ensures Inv(c, Step(c, s, e))
  {
    StepPositions(c, s, e);
    StepTable(c, s, e);
    StepStores(c, s, e);
    StepError(c, s, e);
  }

  lemma {:induction false} ReachableInv(c: Input, run: seq<Event>, s: State)
    requires c.Valid() && Run(c, run) == Some(s)
    ensures Inv(c, s)
  {
    if run != [] {
      var p := Run(c, run[..|run| - 1]).value;
      ReachableInv(c, run[..|run| - 1], p);
      StepInv(c, p, run[|run| - 1]);
    }
  }

  // --- what every run keeps and leaves ----------------------------------------------

  /** A bucket disappears only while empty, and every other keeps its contents. */
  lemma StepKeepsObjects(c: Input, s: State, e: Event, b: string)
    requires c.Valid() && |s.threads| == |c.names| && Enabled(c, s, e) && !(e.UserWrites? && e.backend == b)
    requires b in s.stores && s.stores[b] != {}
    ensures b in Step(c, s, e).stores && Step(c, s, e).stores[b] == s.stores[b]
  {
  }

  /** However Delete is scheduled and whatever fails, a bucket that holds objects
      is left as it is, as long as no user writes to it. */
  lemma {:induction false} ObjectsKept(c: Input, run: seq<Event>, s: State, b: string)
    requires c.Valid() && Run(c, run) == Some(s) && b in c.stores && c.stores[b] != {}
    requires forall e :: e in run ==> !(e.UserWrites? && e.backend == b)
    ensures b in s.stores && s.stores[b] == c.stores[b]
  {
    if run != [] {
      var p := Run(c, run[..|run| - 1]).value;
      ObjectsKept(c, run[..|run| - 1], p, b);
      StepKeepsObjects(c, p, run[|run| - 1], b);
    }
  }

  /** The backends whose deletion was attempted and failed. */
  ghost predicate FailedOn(c: Input, s: State, name: string)
    requires c.Valid() && |s.threads| == |c.names|
  {
    exists i :: 0 <= i < |c.names| && c.names[i] == name && s.threads[i].Returned? && s.threads[i].result.Some?
  }

  /** After Delete the table, and with it Status.Backends, holds exactly the
      enabled backends with a status entry whose deletion failed, each Deleting
      with a message; it is empty exactly when the group had no error, and then
      none of the attempted buckets exists any more. */
  lemma StatusAfterDelete(c: Input, run: seq<Event>, s: State, before: Status, status: Status, minReplicas: nat)
    requires c.Valid() && Run(c, run) == Some(s) && Done(c, s)
    requires IsStatusAfter(before, status, s.table, c.names, minReplicas)
    ensures forall n :: n in status.backends <==> FailedOn(c, s, n)
    ensures forall i :: 0 <= i < |c.names| && s.threads[i].Returned? && s.threads[i].result.Some? ==>
              && c.names[i] in c.recorded && c.names[i] in status.backends
              && Some(status.backends[c.names[i]]) == FailureEntry(s.threads[i].result)
    ensures status.backends == map[] <==> s.firstErr.None?
    ensures s.firstErr.None? ==> forall n :: n in c.names && n in c.recorded ==> n !in s.stores
  {
    ReachableInv(c, run, s);
    StatusBackends(before, status, s.table, c.names, minReplicas);
    forall n ensures n in status.backends <==> FailedOn(c, s, n) {
      FailedEntry(c, s, n);
    }
    forall i | 0 <= i < |c.names| && s.threads[i].Returned? && s.threads[i].result.Some?
      ensures c.names[i] in c.recorded && c.names[i] in status.backends
      ensures Some(status.backends[c.names[i]]) == FailureEntry(s.threads[i].result)
    {
      FailureRecorded(c, s, i);
    }
    ErrorMeansFailure(c, s);
    if status.backends == map[] {
      forall n ensures !FailedOn(c, s, n) { assert n !in status.backends; }
    } else {
      var n :| n in status.backends;
      assert FailedOn(c, s, n);
    }
  }

  /** The group's error is nil exactly when every attempted deletion succeeded. */
  lemma GroupErrorExactly(c: Input, run: seq<Event>, s: State)
    requires c.Valid() && Run(c, run) == Some(s) && Done(c, s)
    ensures s.firstErr.None? <==>
            forall i :: 0 <= i < |s.threads| ==> s.threads[i].Skipped? || s.threads[i] == Returned(None)
  {
    ReachableInv(c, run, s);
  }

  lemma FailureRecorded(c: Input, s: State, i: nat)
    requires c.Valid() && Inv(c, s) && i < |c.names| && s.threads[i].Returned? && s.threads[i].result.Some?
    ensures c.names[i] in c.recorded
            && Entry(Recorded(s.table, c.names), c.names[i]) == FailureEntry(s.threads[i].result)
  {
    assert Entry(s.table, c.names[i]) == EntryFor(s.threads[i]);
  }

  /** The group reports an error exactly when some deletion failed; otherwise
      no attempted bucket exists any more. */
  lemma ErrorMeansFailure(c: Input, s: State)
    requires c.Valid() && Inv(c, s) && Done(c, s)
    ensures s.firstErr.Some? <==> exists n :: FailedOn(c, s, n)
    ensures s.firstErr.None? ==> forall n :: n in c.names && n in c.recorded ==> n !in s.stores
  {
    if s.firstErr.Some? {
      var i :| 0 <= i < |c.names| && s.threads[i] == Returned(s.firstErr);
      assert FailedOn(c, s, c.names[i]);
    } else {
      forall n | n in c.names && n in c.recorded ensures n !in s.stores {
        var i :| 0 <= i < |c.names| && c.names[i] == n;
        assert Gone(s.threads[i]);
      }
    }
  }

  lemma FailedEntry(c: Input, s: State, n: string)
    requires c.Valid() && Inv(c, s) && Done(c, s)
    ensures n in Recorded(s.table, c.names) <==> FailedOn(c, s, n)
  {
    if n in c.names {
      var i :| 0 <= i < |c.names| && c.names[i] == n;
      assert Entry(s.table, c.names[i]) == EntryFor(s.threads[i]);
      if FailedOn(c, s, n) {
        var j :| 0 <= j < |c.names| && c.names[j] == n && s.threads[j].Returned? && s.threads[j].result.Some?;
        assert i == j;
      }
    }
  }

  /** Over any run, no backend gains the bucket. */
  lemma StoresShrink(c: Input, run: seq<Event>, s: State)
    requires c.Valid() && Run(c, run) == Some(s)
    ensures s.stores.Keys <= c.stores.Keys
  {
    ReachableInv(c, run, s);
  }

  /** With no status entry nothing is attempted: only users change the stores. */
  lemma NothingAttempted(c: Input, run: seq<Event>, s: State)
    requires c.Valid() && Run(c, run) == Some(s) && c.recorded == {}
    ensures s.table == map[] && s.firstErr.None?
    ensures s.stores.Keys == c.stores.Keys
  {
    ReachableInv(c, run, s);
    if run != [] {
      var p := Run(c, run[..|run| - 1]).value;
      NothingAttempted(c, run[..|run| - 1], p);
      ReachableInv(c, run[..|run| - 1], p);
    }
  }

  /** A bucket on a backend that was not attempted stays. */
  lemma {:induction false} OthersUntouched(c: Input, run: seq<Event>, s: State, b: string)
    requires c.Valid() && Run(c, run) == Some(s)
    requires b in c.stores && !(b in c.names && b in c.recorded)
    ensures b in s.stores
  {
    if run != [] {
      var p := Run(c, run[..|run| - 1]).value;
      OthersUntouched(c, run[..|run| - 1], p, b);
      ReachableInv(c, run[..|run| - 1], p);
    }
  }

  /** A deletion without error removes the attempted buckets and no others. */
  lemma SuccessRemovesAttempted(c: Input, run: seq<Event>, s: State)
    requires c.Valid() && Run(c, run) == Some(s) && Done(c, s) && s.firstErr.None?
    ensures s.stores.Keys == c.stores.Keys - (Elements(c.names) * c.recorded)
  {
    ReachableInv(c, run, s);
    ErrorMeansFailure(c, s);
    forall b | b in c.stores && !(b in c.names && b in c.recorded) ensures b in s.stores {
      OthersUntouched(c, run, s, b);
    }
  }

  // --- every schedule ends ------------------------------------------------------------

  function ThreadRank(t: Thread): nat {
    match t
    case NotStarted => 6
    case GettingClient => 5
    case Heading => 4
    case Deleting => 3
    case Recording(_) => 2
    case Returning(_) => 1
    case _ => 0
  }

  function Rank(s: State): nat { Sum(s.threads, ThreadRank) }

  /** Every step but the users' uses up rank. */
  lemma StepRank(c: Input, s: State, e: Event)
    requires c.Valid() && Inv(c, s) && Enabled(c, s, e) && !e.UserWrites?
    ensures Rank(Step(c, s, e)) < Rank(s)
  {
    var t := Step(c, s, e);
    var i := if e.Start? then s.next else e.i;
    StepMovesOne(c, s, e, i);
    SumUpdate(s.threads, i, t.threads[i], ThreadRank);
  }

  lemma StepMovesOne(c: Input, s: State, e: Event, i: nat)
    requires c.Valid() && |s.threads| == |c.names| && PositionsOk(c, s) && Enabled(c, s, e) && !e.UserWrites?
    requires i == if e.Start? then s.next else e.i
    ensures i < |s.threads| && |Step(c, s, e).threads| == |s.threads|
    ensures var t := Step(c, s, e).threads;
            t == s.threads[i := t[i]] && ThreadRank(t[i]) < ThreadRank(s.threads[i])
  {
  }

  /** Started, attempted and not returned. */
  predicate Going(t: Thread) { !t.NotStarted? && !t.Skipped? && !t.Returned? }

  function OwnEvent(s: State, i: nat): Event
    requires i < |s.threads| && Going(s.threads[i])
  {
    match s.threads[i]
    case GettingClient => GetClient(i)
    case Heading => Head(i)
    case Deleting => DeleteCall(i)
    case Recording(_) => Record(i)
    case _ => Return(i)
  }

  // --- which error comes first ----------------------------------------------------------

  predicate Attempted(c: Input, i: nat)
    requires c.Valid() && i < |c.names|
  {
    c.names[i] in c.recorded
  }

  /** A call the goroutine makes meets an error. */
  predicate CallFails(c: Input, i: nat)
    requires c.Valid() && i < |c.names|
  {
    var r := c.replies[i];
    Attempted(c, i) && (r.clientErr.Some? || r.headErr.Some? || (c.names[i] in c.stores && r.deleteErr.Some?))
  }

  predicate HoldsObjects(c: Input, i: nat)
    requires c.Valid() && i < |c.names|
  {
    Attempted(c, i) && !CallFails(c, i) && c.names[i] in c.stores && c.stores[c.names[i]] != {}
  }

  /** What goroutine `i` comes to when no user interferes. */
  function ResultOf(c: Input, i: nat): Option<DeleteError>
    requires c.Valid() && i < |c.names|
  {
    var r := c.replies[i];
    if !Attempted(c, i) then None
    else if r.clientErr.Some? then Some(Other(r.clientErr.value))
    else if r.headErr.Some? then Some(Other(r.headErr.value))
    else if c.names[i] !in c.stores then None
    else S3Delete(c.stores, c.names[i], r.deleteErr).1
  }

  /** The first of the goroutine's calls to fail decides the error, in the order in
      which they are made; without one, objects in the bucket do. */
  lemma ResultExactly(c: Input, i: nat)
    requires c.Valid() && i < |c.names|
    ensures ResultOf(c, i).None? <==> !CallFails(c, i) && !HoldsObjects(c, i)
    ensures HoldsObjects(c, i) ==> ResultOf(c, i) == Some(NotEmpty)
    ensures CallFails(c, i) ==>
              var r := c.replies[i];
              var message := if r.clientErr.Some? then r.clientErr.value
                             else if r.headErr.Some? then r.headErr.value else r.deleteErr.value;
              ResultOf(c, i) == Some(Other(message))
  {
  }

  /** Without users interfering Delete's group is error-free exactly if no call of
      an attempted backend fails and none of their buckets holds an object. */
  lemma ErrorFreeExactly(c: Input, run: seq<Event>, s: State)
    requires c.Valid() && WithoutUsers(run) && Run(c, run) == Some(s) && Done(c, s)
    ensures s.firstErr.None? <==> forall i :: 0 <= i < |c.names| ==> !CallFails(c, i) && !HoldsObjects(c, i)
    ensures s.firstErr.Some? ==> exists i :: 0 <= i < |c.names| && ResultOf(c, i) == s.firstErr
  {
    ReachableDetermined(c, run, s);
    forall i | 0 <= i < |c.names|
      ensures s.threads[i].Returned? || s.threads[i].Skipped?
      ensures (if s.threads[i].Returned? then s.threads[i].result else None) == ResultOf(c, i)
      ensures ResultOf(c, i).None? <==> !CallFails(c, i) && !HoldsObjects(c, i)
    {
      assert OnItsWay(c, s, i);
      ResultExactly(c, i);
    }
    if s.firstErr.Some? {
      var i :| 0 <= i < |c.names| && s.threads[i] == Returned(s.firstErr);
      assert ResultOf(c, i) == s.firstErr;
    }
  }

  predicate WithoutUsers(run: seq<Event>) { forall e :: e in run ==> !e.UserWrites? }

  /** The goroutine is on its way to that result, and until its S3 call its
      bucket is as it was. */
  predicate OnItsWay(c: Input, s: State, i: nat)
    requires c.Valid() && |s.threads| == |c.names| && i < |c.names|
  {
    var t, r, name := s.threads[i], c.replies[i], c.names[i];
    if t.Recording? || t.Returning? || t.Returned? then t.result == ResultOf(c, i)
    else
      && (t.Skipped? ==> !Attempted(c, i))
      && (Going(t) ==> Attempted(c, i))
      && (name in s.stores <==> name in c.stores)
      && (name in c.stores ==> s.stores[name] == c.stores[name])
      && (t.Heading? || t.Deleting? ==> r.clientErr.None?)
      && (t.Deleting? ==> r.headErr.None? && name in c.stores)
  }

  ghost predicate Determined(c: Input, s: State)
    requires c.Valid() && |s.threads| == |c.names|
  {
    forall i :: 0 <= i < |c.names| ==> OnItsWay(c, s, i)
  }

  lemma StepDetermined(c: Input, s: State, e: Event)
    requires c.Valid() && Inv(c, s) && Determined(c, s) && Enabled(c, s, e) && !e.UserWrites?
    ensures Determined(c, Step(c, s, e))
  {
    var t := Step(c, s, e);
    var i := if e.Start? then s.next else e.i;
    assert OnItsWay(c, s, i);
    forall j | 0 <= j < |c.names| ensures OnItsWay(c, t, j) {
      assert OnItsWay(c, s, j);
      if j != i { assert c.names[j] != c.names[i]; }
    }
  }

  lemma {:induction false} ReachableDetermined(c: Input, run: seq<Event>, s: State)
    requires c.Valid() && WithoutUsers(run) && Run(c, run) == Some(s)
    ensures Inv(c, s) && Determined(c, s)
  {
    ReachableInv(c, run, s);
    if run != [] {
      var p := Run(c, run[..|run| - 1]).value;
      ReachableDetermined(c, run[..|run| - 1], p);
      StepDetermined(c, p, run[|run| - 1]);
    }
  }

  lemma Then(c: Input, run: seq<Event>, s: State, e: Event) returns (longer: seq<Event>, t: State)
    requires c.Valid() && WithoutUsers(run) && Run(c, run) == Some(s) && Enabled(c, s, e) && !e.UserWrites?
    ensures t == Step(c, s, e) && Run(c, longer) == Some(t) && WithoutUsers(longer) && Rank(t) < Rank(s)
  {
    longer, t := run + [e], Step(c, s, e);
    assert (run + [e])[..|run|] == run;
    ReachableInv(c, run, s);
    StepRank(c, s, e);
  }

  /** Goroutine `i` runs ahead of all others: its error is the first. */
  lemma RunAhead(c: Input, run: seq<Event>, s: State, i: nat) returns (longer: seq<Event>, t: State)
    requires c.Valid() && WithoutUsers(run) && Run(c, run) == Some(s) && s.firstErr.None?
    requires i < |c.names| && Attempted(c, i) && !s.threads[i].Returned?
    ensures WithoutUsers(longer) && Run(c, longer) == Some(t) && t.firstErr == ResultOf(c, i)
    decreases Rank(s)
  {
    ReachableDetermined(c, run, s);
    assert OnItsWay(c, s, i);
    longer, t := Then(c, run, s, if s.threads[i].NotStarted? then Start else OwnEvent(s, i));
    if !t.threads[i].Returned? { longer, t := RunAhead(c, longer, t, i); }
  }

  /** Any run can be brought to its end, and a first error stays the first. */
  lemma Complete(c: Input, run: seq<Event>, s: State) returns (longer: seq<Event>, t: State)
    requires c.Valid() && WithoutUsers(run) && Run(c, run) == Some(s)
    ensures WithoutUsers(longer) && Run(c, longer) == Some(t) && Done(c, t)
    ensures s.firstErr.Some? ==> t.firstErr == s.firstErr
    decreases Rank(s)
  {
    longer, t := run, s;
    if !Done(c, s) {
      ReachableInv(c, run, s);
      var e := Start;
      if s.next == |c.names| {
        var i: nat :| i < |s.threads| && Going(s.threads[i]);
        e := OwnEvent(s, i);
      }
      longer, t := Then(c, run, s, e);
      longer, t := Complete(c, longer, t);
    }
  }

  /** Some undisturbed run of Delete ends with this first error. */
  ghost predicate CanEndWith(c: Input, err: Option<DeleteError>)
    requires c.Valid()
  {
    exists run :: WithoutUsers(run) && Run(c, run).Some? && Done(c, Run(c, run).value)
        && Run(c, run).value.firstErr == err
  }

  /** The schedule alone decides which of the goroutines' errors Delete sees. */
  lemma FirstErrorExactly(c: Input, err: DeleteError)
    requires c.Valid()
    ensures CanEndWith(c, Some(err)) <==> exists i :: 0 <= i < |c.names| && ResultOf(c, i) == Some(err)
  {
    if CanEndWith(c, Some(err)) {
      var run :| WithoutUsers(run) && Run(c, run).Some? && Done(c, Run(c, run).value)
          && Run(c, run).value.firstErr == Some(err);
      var s := Run(c, run).value;
      ReachableDetermined(c, run, s);
      var i :| 0 <= i < |c.names| && s.threads[i] == Returned(s.firstErr);
      assert OnItsWay(c, s, i);
    }
    if i: nat :| i < |c.names| && ResultOf(c, i) == Some(err) {
      var run, s := RunAhead(c, [], Init(c), i);
      run, s := Complete(c, run, s);
    }
  }

  /** For one and the same input Delete may meet "not empty" first, and enable a
      disabled CR again, or another error first, and leave it disabled, exactly
      when one attempted backend holds objects, its calls meeting no error, and
      a call of another attempted one meets one. */
  lemma ReenablingUndecided(c: Input)
    requires c.Valid()
    ensures CanEndWith(c, Some(NotEmpty)) && (exists m :: CanEndWith(c, Some(Other(m)))) <==>
            && (exists i :: 0 <= i < |c.names| && HoldsObjects(c, i))
            && (exists j :: 0 <= j < |c.names| && CallFails(c, j))
  {
    FirstErrorExactly(c, NotEmpty);
    forall i | 0 <= i < |c.names|
      ensures ResultOf(c, i) == Some(NotEmpty) <==> HoldsObjects(c, i)
      ensures ResultOf(c, i).Some? && ResultOf(c, i).value.Other? <==> CallFails(c, i)
    {
    }
    if m :| CanEndWith(c, Some(Other(m))) {
      FirstErrorExactly(c, Other(m));
    }
    if j :| 0 <= j < |c.names| && CallFails(c, j) {
      FirstErrorExactly(c, ResultOf(c, j).value);
    }
  }
}
