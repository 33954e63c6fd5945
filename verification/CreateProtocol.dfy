// The goroutine protocol of Create (internal/controller/bucket/create.go).
//
// One goroutine per backend calls CreateBucket; the first to succeed wins a
// compare-and-swap and announces its backend on an unbuffered channel, every
// goroutine finally reports on a buffered error channel, and a receiver loops
// once per goroutine.  A run is any sequence of events: the scheduler, the
// arrival of replies and the expiry of the context are all nondeterministic.

module BucketCreation {
  import opened Wrappers

  /** What a backend answers CreateBucket. */
  datatype Answer = Created | AlreadyOwnedByYou | AlreadyExists | Refused(message: string)

  /** The SDK's error. */
  function ErrorOf(a: Answer): Option<Error> {
    match a
    case Created => None
    case AlreadyOwnedByYou => Some("BucketAlreadyOwnedByYou")
    case AlreadyExists => Some("BucketAlreadyExists")
    case Refused(m) => Some(m)
  }

  function WrapCreate(e: Error): Error { "failed to create bucket: " + e }

  /** What CreateBucket returns. */
  function ResultOf(a: Answer): (err: Option<Error>)
    ensures err.None? <==> a.Created?
  {
    if a.Refused? then Some(WrapCreate(a.message)) else ErrorOf(a)
  }

  /** rgw.CreateBucket: a bucket that is there already is no failure to trace, but
      the error is returned all the same. */
  method CreateBucket(a: Answer) returns (err: Option<Error>, traced: bool)
    ensures err == ResultOf(a)
    ensures err.None? <==> a.Created?
    ensures traced <==> !a.Created? && !a.AlreadyOwnedByYou? && !a.AlreadyExists?
  {
    err := ErrorOf(a);
    var ignored := if a.AlreadyOwnedByYou? || a.AlreadyExists? then None else err;
    if ignored.Some? { return Some(WrapCreate(err.value)), true; }
    traced := false;
  }
}

module CreateProtocol {
  import opened Wrappers
  import opened Sums

  const CONTEXT_ERROR: Error := "context deadline exceeded"

  /** What one call of Create starts from: the backends to create on, whether
      each has an S3 client, and what its CreateBucket call returns (None is nil). */
  datatype Input = Input(names: seq<string>, hasClient: seq<bool>, results: seq<Option<Error>>) {
    predicate Valid() {
      |hasClient| == |names| && |results| == |names|
    }

    /** The goroutine of backend `i` runs and its CreateBucket call succeeds. */
    predicate Succeeds(i: int)
      requires Valid()
    {
      0 <= i < |names| && hasClient[i] && results[i].None?
    }
  }

  /** The program counter of a goroutine. */
  datatype Worker =
    | Absent                      // not spawned (yet), or skipped for want of a client
    | Creating                    // inside CreateBucket
    | Created                     // created, before the compare-and-swap
    | Announcing                  // won the compare-and-swap, blocked on readyChan
    | Reporting(msg: Option<Error>) // about to send msg on errChan
    | Finished

  /** The program counter of the main goroutine. */
  datatype Main =
    | Spawning(next: nat)
    | Receiving(i: nat)
    | NoBackends                  // backendCount == 0: label and pause the CR
    | Ready(backend: string)      // the readyChan branch: mark the CR Available
    | FellThrough                 // the loop ended: mark the CR Unavailable
  {
    predicate Returned() { NoBackends? || Ready? || FellThrough? }
  }

  /** The shared state; `taken` and `ticks` count the receives from errChan and
      from ctx.Done(), and are history only. */
  datatype State = State(
    workers: seq<Worker>,
    winner: Option<nat>,          // the compare-and-swap flag, with who set it
    errChan: seq<Option<Error>>,
    main: Main,
    count: nat,                   // backendCount
    createErr: Option<Error>,
    expired: bool,
    taken: nat,
    ticks: nat)

  datatype Event =
    | Spawn
    | StartReceiving
    | CreateReturns(i: nat)
    | CompareAndSwap(i: nat)
    | Report(i: nat)
    | ReceiveReady(i: nat)
    | ReceiveReport
    | ReceiveDone
    | LeaveLoop
    | Expire

  function Init(c: Input): State
    requires c.Valid()
  {
    State(seq(|c.names|, _ => Absent), None, [], Spawning(0), 0, None, false, 0, 0)
  }

  predicate Enabled(c: Input, s: State, e: Event)
    requires c.Valid() && |s.workers| == |c.names|
  {
    match e
    case Spawn => s.main.Spawning? && s.main.next < |c.names|
    case StartReceiving => s.main.Spawning? && s.main.next == |c.names|
    case CreateReturns(i) => i < |s.workers| && s.workers[i].Creating?
    case CompareAndSwap(i) => i < |s.workers| && s.workers[i].Created?
    // errChan is buffered with room for one message per backend name.
    case Report(i) => i < |s.workers| && s.workers[i].Reporting? && |s.errChan| < |c.names|
    case ReceiveReady(i) => s.main.Receiving? && s.main.i < s.count && i < |s.workers| && s.workers[i].Announcing?
    case ReceiveReport => s.main.Receiving? && s.main.i < s.count && s.errChan != []
    case ReceiveDone => s.main.Receiving? && s.main.i < s.count && s.expired
    case LeaveLoop => s.main.Receiving? && s.main.i >= s.count
    case Expire => !s.expired
  }

  function Apply(c: Input, s: State, e: Event): State
    requires c.Valid() && |s.workers| == |c.names| && Enabled(c, s, e)
  {
    match e
    case Spawn =>
      var k := s.main.next;
      if c.hasClient[k]
      then s.(workers := s.workers[k := Creating], count := s.count + 1, main := Spawning(k + 1))
      else s.(main := Spawning(k + 1))
    case StartReceiving =>
      s.(main := if s.count == 0 then NoBackends else Receiving(0))
    case CreateReturns(i) =>
      s.(workers := s.workers[i := if c.results[i].None? then Created else Reporting(c.results[i])])
    case CompareAndSwap(i) =>
      if s.winner.None?
      then s.(winner := Some(i), workers := s.workers[i := Announcing])
      else s.(workers := s.workers[i := Reporting(None)])
    case Report(i) =>
      s.(errChan := s.errChan + [s.workers[i].msg], workers := s.workers[i := Finished])
    case ReceiveReady(i) =>
      s.(main := Ready(c.names[i]), workers := s.workers[i := Reporting(None)])
    case ReceiveReport =>
      s.(createErr := s.errChan[0], errChan := s.errChan[1..], main := Receiving(s.main.i + 1), taken := s.taken + 1)
    case ReceiveDone =>
      s.(createErr := Some(CONTEXT_ERROR), main := Receiving(s.main.i + 1), ticks := s.ticks + 1)
    case LeaveLoop => s.(main := FellThrough)
    case Expire => s.(expired := true)
  }

  /** The state after the events of `run`, or None when one of them could not
      happen.  Every reachable state is Some(s) for some run. */
  function Run(c: Input, run: seq<Event>): (r: Option<State>)
    requires c.Valid()
    ensures r.Some? ==> |r.value.workers| == |c.names|
  {
    if run == [] then Some(Init(c))
    else
      var before := Run(c, run[..|run| - 1]);
      var last := run[|run| - 1];
      if before.Some? && Enabled(c, before.value, last) then Some(Apply(c, before.value, last)) else None
  }

  // --- counting workers -------------------------------------------------

  function FinishedWeight(w: Worker): nat { if w.Finished? then 1 else 0 }
  function SpawnedWeight(w: Worker): nat { if w.Absent? then 0 else 1 }

  function FinishedCount(ws: seq<Worker>): nat { Sum(ws, FinishedWeight) }
  function SpawnedCount(ws: seq<Worker>): nat { Sum(ws, SpawnedWeight) }

  /** Two different goroutines run and succeed. */
  ghost predicate TwoSuccesses(c: Input)
    requires c.Valid()
  {
    exists i: int, j: int :: i != j && c.Succeeds(i) && c.Succeeds(j)
  }

  // --- the invariant ----------------------------------------------------

  ghost predicate WorkersOk(c: Input, s: State)
    requires c.Valid()
  {
    var passed := if s.main.Spawning? then s.main.next else |c.names|;
    && |s.workers| == |c.names|
    && (forall i :: 0 <= i < |s.workers| ==>
          && (s.workers[i].Absent? <==> (i >= passed || !c.hasClient[i]))
          && (s.workers[i].Created? ==> c.results[i].None?)
          && (s.workers[i].Announcing? ==> s.winner == Some(i))
          && (s.workers[i].Reporting? ==> s.workers[i].msg == c.results[i])
          && ((s.workers[i].Reporting? || s.workers[i].Finished?) && c.results[i].None? ==> s.winner.Some?))
    && (s.winner.Some? ==>
          && c.Succeeds(s.winner.value)
          && (if s.main.Ready? then s.workers[s.winner.value].Reporting? || s.workers[s.winner.value].Finished?
              else s.workers[s.winner.value].Announcing?))
    && (s.main.Ready? ==> s.winner.Some? && s.main.backend == c.names[s.winner.value])
  }

  ghost predicate CountsOk(c: Input, s: State)
    requires c.Valid()
  {
    && (s.main.Spawning? ==> s.main.next <= |c.names| && s.taken == 0 && s.ticks == 0)
    && s.count == SpawnedCount(s.workers)
    && FinishedCount(s.workers) == |s.errChan| + s.taken
    && (s.main.Receiving? ==> s.count > 0 && s.main.i == s.taken + s.ticks <= s.count)
    && (s.main.NoBackends? ==> s.count == 0)
    && (s.main.FellThrough? ==> s.taken + s.ticks == s.count > 0)
    && (s.main.Ready? ==> s.taken + s.ticks < s.count)
    && (s.ticks > 0 ==> s.expired)
  }

  /** Before the winner is heard, a nil report can only come from a goroutine
      that lost the compare-and-swap. */
  ghost predicate NilReportsOk(c: Input, s: State)
    requires c.Valid()
  {
    !s.main.Ready? ==>
      && ((exists i :: 0 <= i < |s.workers| && s.workers[i] == Reporting(None)) ==> TwoSuccesses(c))
      && (None in s.errChan ==> TwoSuccesses(c))
      && (s.taken + s.ticks > 0 && s.createErr.None? ==> TwoSuccesses(c))
  }

  /** The message is what the CreateBucket call of some goroutine returned. */
  ghost predicate FromBackend(c: Input, msg: Option<Error>)
    requires c.Valid()
  {
    exists i: nat :: i < |c.names| && c.hasClient[i] && c.results[i] == msg
  }

  ghost predicate ErrorsOk(c: Input, s: State)
    requires c.Valid()
  {
    && (forall m :: m in s.errChan ==> FromBackend(c, m))
    && (!s.expired && s.taken > 0 ==> FromBackend(c, s.createErr))
  }

  ghost predicate Inv(c: Input, s: State)
    requires c.Valid()
  {
    WorkersOk(c, s) && CountsOk(c, s) && NilReportsOk(c, s) && ErrorsOk(c, s)
  }

  lemma {:induction false} SumAbsent(n: nat)
    ensures FinishedCount(seq(n, _ => Absent)) == 0 && SpawnedCount(seq(n, _ => Absent)) == 0
  {
    if n > 0 {
      assert seq(n, _ => Absent)[1..] == seq(n - 1, _ => Absent);
      SumAbsent(n - 1);
    }
  }

  lemma InitInv(c: Input)
    requires c.Valid()
    ensures Inv(c, Init(c))
  {
    SumAbsent(|c.names|);
  }

  /** How one worker's move changes the two counts. */
  lemma CountMove(ws: seq<Worker>, i: nat, w: Worker)
    requires i < |ws|
    ensures FinishedCount(ws[i := w]) + FinishedWeight(ws[i]) == FinishedCount(ws) + FinishedWeight(w)
    ensures SpawnedCount(ws[i := w]) + SpawnedWeight(ws[i]) == SpawnedCount(ws) + SpawnedWeight(w)
  {
    SumUpdate(ws, i, w, FinishedWeight);
    SumUpdate(ws, i, w, SpawnedWeight);
  }

  /** The steps of the goroutines. */
  predicate ByWorker(e: Event) { e.CreateReturns? || e.CompareAndSwap? || e.Report? }

  lemma WorkerStepWorkers(c: Input, s: State, e: Event)
    requires c.Valid() && WorkersOk(c, s) && Enabled(c, s, e) && ByWorker(e)
    ensures WorkersOk(c, Apply(c, s, e))
  {
    if e.CompareAndSwap? && s.winner.None? { assert c.Succeeds(e.i); }
  }

  lemma MainStepWorkers(c: Input, s: State, e: Event)
    requires c.Valid() && WorkersOk(c, s) && Enabled(c, s, e) && !ByWorker(e)
    requires s.main.Spawning? ==> s.main.next <= |c.names|
    ensures WorkersOk(c, Apply(c, s, e))
  {
    if e.ReceiveReady? { assert s.winner == Some(e.i); }
  }

  lemma StepNilReports(c: Input, s: State, e: Event)
    requires c.Valid() && Inv(c, s) && Enabled(c, s, e)
    ensures NilReportsOk(c, Apply(c, s, e))
  {
    var t := Apply(c, s, e);
    match e
    case CompareAndSwap(i) =>
      if s.winner.Some? && !s.main.Ready? {
        assert c.Succeeds(i) && c.Succeeds(s.winner.value) && i != s.winner.value;
      }
    case _ =>
  }

  /** A goroutine that has been spawned and has not finished leaves room. */
  lemma UnfinishedBound(ws: seq<Worker>, i: nat)
    requires i < |ws| && !ws[i].Finished? && !ws[i].Absent?
    ensures FinishedCount(ws) < SpawnedCount(ws)
  {
    SumMonotone(ws, FinishedWeight, SpawnedWeight);
  }

  lemma {:induction false} SpawnedAtMostAll(ws: seq<Worker>)
    ensures SpawnedCount(ws) <= |ws|
  {
    if ws != [] {
      SpawnedAtMostAll(ws[1..]);
    }
  }

  lemma WorkerStepCounts(c: Input, s: State, e: Event)
    requires c.Valid() && |s.workers| == |c.names| && CountsOk(c, s) && Enabled(c, s, e) && ByWorker(e)
    ensures CountsOk(c, Apply(c, s, e))
  {
    CountMove(s.workers, e.i, Apply(c, s, e).workers[e.i]);
  }

  lemma MainStepCounts(c: Input, s: State, e: Event)
    requires c.Valid() && |s.workers| == |c.names| && CountsOk(c, s) && Enabled(c, s, e) && !ByWorker(e)
    requires e.Spawn? ==> s.workers[s.main.next].Absent?
    ensures CountsOk(c, Apply(c, s, e))
  {
    if e.Spawn? { CountMove(s.workers, s.main.next, Creating); }
    if e.ReceiveReady? { CountMove(s.workers, e.i, Reporting(None)); }
  }

  /** Every step keeps the invariant. */
  lemma StepInv(c: Input, s: State, e: Event)
    requires c.Valid() && Inv(c, s) && Enabled(c, s, e)
    ensures Inv(c, Apply(c, s, e))
  {
    if ByWorker(e) {
      WorkerStepWorkers(c, s, e);
      WorkerStepCounts(c, s, e);
    } else {
      MainStepWorkers(c, s, e);
      MainStepCounts(c, s, e);
    }
    StepNilReports(c, s, e);
    assert e.ReceiveReport? ==> s.errChan[0] in s.errChan;
    assert e.Report? ==> FromBackend(c, s.workers[e.i].msg);
  }

  lemma {:induction false} ReachableInv(c: Input, run: seq<Event>, s: State)
    requires c.Valid() && Run(c, run) == Some(s)
    ensures Inv(c, s)
  {
    if run == [] {
      InitInv(c);
    } else {
      var p := LastStep(c, run, s);
      ReachableInv(c, run[..|run| - 1], p);
      StepInv(c, p, run[|run| - 1]);
    }
  }

  lemma LastStep(c: Input, run: seq<Event>, s: State) returns (p: State)
    requires c.Valid() && Run(c, run) == Some(s) && run != []
    ensures Run(c, run[..|run| - 1]) == Some(p)
    ensures |p.workers| == |c.names| && Enabled(c, p, run[|run| - 1]) && s == Apply(c, p, run[|run| - 1])
  {
    p := Run(c, run[..|run| - 1]).value;
  }

  lemma {:induction false} NotExpired(c: Input, run: seq<Event>, s: State)
    requires c.Valid() && Run(c, run) == Some(s) && Expire !in run
    ensures !s.expired
  {
    if run != [] {
      var p := LastStep(c, run, s);
      NotExpired(c, run[..|run| - 1], p);
    }
  }

  // --- what every run keeps ----------------------------------------------

  /** In every reachable state at most one goroutine is on readyChan, and it
      carries a backend whose bucket was created; no send on errChan blocks. */
  lemma ReadyChannel(c: Input, run: seq<Event>, s: State, i: nat)
    requires c.Valid() && Run(c, run) == Some(s) && i < |s.workers|
    ensures s.workers[i].Announcing? ==>
              c.Succeeds(i) && forall j :: 0 <= j < |s.workers| && s.workers[j].Announcing? ==> j == i
    ensures s.workers[i].Reporting? ==> Enabled(c, s, Report(i))
  {
    ReachableInv(c, run, s);
    if s.workers[i].Reporting? {
      UnfinishedBound(s.workers, i);
      SpawnedAtMostAll(s.workers);
    }
  }

  /** The readyChan branch names a created backend and is taken within
      `count` receives: at most count - 1 messages come before it. */
  lemma ReadyIsCreated(c: Input, run: seq<Event>, s: State)
    requires c.Valid() && Run(c, run) == Some(s) && s.main.Ready?
    ensures exists i: nat :: c.Succeeds(i) && c.names[i] == s.main.backend
    ensures s.taken + s.ticks <= s.count - 1
  {
    ReachableInv(c, run, s);
    assert c.Succeeds(s.winner.value);
  }

  /** Without expiry the loop ends unannounced only if every creation failed;
      the error then returned is one a backend gave. */
  lemma FallThroughWithoutExpiry(c: Input, run: seq<Event>, s: State)
    requires c.Valid() && Run(c, run) == Some(s) && Expire !in run && s.main.FellThrough?
    ensures forall i :: !c.Succeeds(i)
    ensures s.createErr.Some? && FromBackend(c, s.createErr)
  {
    ReachableInv(c, run, s);
    NotExpired(c, run, s);
    if s.winner.Some? {
      UnfinishedBound(s.workers, s.winner.value);
      assert false;
    }
    forall i | 0 <= i < |c.names| && c.hasClient[i]
      ensures s.workers[i].Finished?
    {
      if !s.workers[i].Finished? { UnfinishedBound(s.workers, i); }
    }
  }

  predicate IsReceive(e: Event) { e.ReceiveReport? || e.ReceiveDone? }

  /** What the k-th event of the run, a receive of the loop, took. */
  function Received(c: Input, run: seq<Event>, k: nat): Option<Error>
    requires c.Valid() && k < |run| && Run(c, run).Some? && IsReceive(run[k])
  {
    PrefixRuns(c, run, k);
    if run[k].ReceiveDone? then Some(CONTEXT_ERROR) else Run(c, run[..k]).value.errChan[0]
  }

  lemma {:induction false} PrefixRuns(c: Input, run: seq<Event>, k: nat)
    requires c.Valid() && k < |run| && Run(c, run).Some?
    ensures Run(c, run[..k]).Some? && Enabled(c, Run(c, run[..k]).value, run[k])
  {
    if k < |run| - 1 {
      PrefixRuns(c, run[..|run| - 1], k);
      assert run[..|run| - 1][..k] == run[..k];
    }
  }

  /** The error returned is what the last receive took: the context's error, or
      the oldest report in errChan, which some goroutine's CreateBucket returned. */
  lemma {:induction false} LastReceiveCounts(c: Input, run: seq<Event>, s: State, k: nat)
    requires c.Valid() && Run(c, run) == Some(s) && k < |run| && IsReceive(run[k])
    requires forall j :: k < j < |run| ==> !IsReceive(run[j])
    ensures s.createErr == Received(c, run, k)
    ensures run[k].ReceiveReport? ==> FromBackend(c, s.createErr)
  {
    var shorter := run[..|run| - 1];
    var p := LastStep(c, run, s);
    PrefixRuns(c, run, k);
    if k < |run| - 1 {
      assert shorter[..k] == run[..k];
      LastReceiveCounts(c, shorter, p, k);
    } else {
      ReachableInv(c, shorter, p);
      if run[k].ReceiveReport? { assert p.errChan[0] in p.errChan; }
    }
  }

  /** A nil error with the CR marked Unavailable needs both an expired context
      and two successful creations. */
  lemma NilErrorOnFallThrough(c: Input, run: seq<Event>, s: State)
    requires c.Valid() && Run(c, run) == Some(s) && s.main.FellThrough? && s.createErr.None?
    ensures Expire in run && TwoSuccesses(c)
  {
    ReachableInv(c, run, s);
    if Expire !in run { FallThroughWithoutExpiry(c, run, s); }
  }

  // --- progress and termination -------------------------------------------

  function WorkerRank(w: Worker): nat {
    match w
    case Absent => 5
    case Creating => 4
    case Created => 3
    case Announcing => 2
    case Reporting(_) => 1
    case Finished => 0
  }

  function MainRank(c: Input, s: State): int {
    match s.main
    case Spawning(k) => 2 * |c.names| - k + 3
    case Receiving(i) => s.count - i + 1
    case _ => 0
  }

  function Rank(c: Input, s: State): int {
    Sum(s.workers, WorkerRank) + MainRank(c, s) + (if s.expired then 0 else 1)
  }

  lemma RankFalls(ws: seq<Worker>, i: nat, w: Worker)
    requires i < |ws| && WorkerRank(w) < WorkerRank(ws[i])
    ensures Sum(ws[i := w], WorkerRank) < Sum(ws, WorkerRank)
  {
    SumUpdate(ws, i, w, WorkerRank);
  }

  /** No worker's move, whichever it is, raises the workers' share of the rank. */
  lemma WorkersRank(c: Input, s: State, e: Event)
    requires c.Valid() && WorkersOk(c, s) && Enabled(c, s, e)
    ensures Sum(Apply(c, s, e).workers, WorkerRank) <= Sum(s.workers, WorkerRank)
    ensures (e.CreateReturns? || e.CompareAndSwap? || e.Report? || e.ReceiveReady?) ==>
              Sum(Apply(c, s, e).workers, WorkerRank) < Sum(s.workers, WorkerRank)
  {
    match e
    case Spawn => if c.hasClient[s.main.next] { RankFalls(s.workers, s.main.next, Creating); }
    case CreateReturns(i) =>
      RankFalls(s.workers, i, if c.results[i].None? then Created else Reporting(c.results[i]));
    case CompareAndSwap(i) =>
      RankFalls(s.workers, i, if s.winner.None? then Announcing else Reporting(None));
    case Report(i) => RankFalls(s.workers, i, Finished);
    case ReceiveReady(i) => RankFalls(s.workers, i, Reporting(None));
    case _ =>
  }

  /** Every step, by whichever goroutine, uses up rank. */
  lemma StepRank(c: Input, s: State, e: Event)
    requires c.Valid() && Inv(c, s) && Enabled(c, s, e)
    ensures 0 <= Rank(c, Apply(c, s, e)) < Rank(c, s)
  {
    WorkersRank(c, s, e);
    MainRankFalls(c, s, e);
  }

  lemma MainRankFalls(c: Input, s: State, e: Event)
    requires c.Valid() && |s.workers| == |c.names| && CountsOk(c, s) && Enabled(c, s, e)
    ensures 0 <= MainRank(c, Apply(c, s, e)) <= MainRank(c, s)
    ensures !(e.CreateReturns? || e.CompareAndSwap? || e.Report? || e.Expire?) ==>
              MainRank(c, Apply(c, s, e)) < MainRank(c, s)
  {
    SpawnedAtMostAll(s.workers);
  }

  /** No schedule goes on for ever: a run is no longer than the initial rank. */
  lemma {:induction false} RunsEnd(c: Input, run: seq<Event>, s: State)
    requires c.Valid() && Run(c, run) == Some(s)
    ensures |run| + Rank(c, s) <= Rank(c, Init(c))
  {
    if run != [] {
      var last := run[|run| - 1];
      var p := Run(c, run[..|run| - 1]).value;
      ReachableInv(c, run[..|run| - 1], p);
      StepRank(c, p, last);
      RunsEnd(c, run[..|run| - 1], p);
    }
  }

  /** Nothing can move any more, except that the context may still expire. */
  ghost predicate Stuck(c: Input, s: State)
    requires c.Valid() && |s.workers| == |c.names|
  {
    forall e :: Enabled(c, s, e) ==> e == Expire
  }

  /** When nothing can move, the receiver has returned, and the only goroutine
      left blocked is the winner, and that only after expiry. */
  lemma StuckState(c: Input, run: seq<Event>, s: State)
    requires c.Valid() && Run(c, run) == Some(s) && Stuck(c, s)
    ensures s.main.Returned()
    ensures forall i :: 0 <= i < |s.workers| ==>
              || s.workers[i].Absent? || s.workers[i].Finished?
              || (s.workers[i].Announcing? && s.winner == Some(i) && s.main.FellThrough? && Expire in run)
  {
    ReachableInv(c, run, s);
    assert !Enabled(c, s, Spawn) && !Enabled(c, s, StartReceiving) && !Enabled(c, s, LeaveLoop);
    assert !Enabled(c, s, ReceiveReport);
    forall i: nat | i < |s.workers|
      ensures s.workers[i].Absent? || s.workers[i].Finished? || s.workers[i].Announcing?
    {
      assert !Enabled(c, s, CreateReturns(i)) && !Enabled(c, s, CompareAndSwap(i)) && !Enabled(c, s, Report(i));
      if s.workers[i].Reporting? { ReadyChannel(c, run, s, i); }
    }
    assert s.winner.Some? ==> !Enabled(c, s, ReceiveReady(s.winner.value));
    if s.winner.None? {
      SumMonotone(s.workers, SpawnedWeight, FinishedWeight);
    } else {
      SpawnedPositive(s.workers, s.winner.value);
      if s.main.FellThrough? && Expire !in run { FallThroughWithoutExpiry(c, run, s); }
    }
  }

  /** Where the receiver ends in every run without expiry, whatever the schedule:
      one successful creation is enough, and needed, for the Ready branch. */
  lemma ReturnedWithoutExpiry(c: Input, run: seq<Event>, s: State)
    requires c.Valid() && Run(c, run) == Some(s) && s.main.Returned() && Expire !in run
    ensures s.main.Ready? <==> exists i :: c.Succeeds(i)
    ensures s.main.NoBackends? <==> forall i :: 0 <= i < |c.names| ==> !c.hasClient[i]
    ensures s.main.FellThrough? <==> (exists i :: 0 <= i < |c.names| && c.hasClient[i]) && forall i :: !c.Succeeds(i)
  {
    ReachableInv(c, run, s);
    if s.main.FellThrough? { FallThroughWithoutExpiry(c, run, s); }
    if s.main.Ready? { assert c.Succeeds(s.winner.value); }
    if s.main.NoBackends? {
      forall i | 0 <= i < |c.names| ensures !c.hasClient[i] {
        if c.hasClient[i] {
          SpawnedPositive(s.workers, i);
        }
      }
    } else {
      if forall i :: 0 <= i < |c.names| ==> !c.hasClient[i] {
        NoneSpawned(s.workers);
      }
    }
  }

  /** The goroutine has a step of its own to take. */
  predicate CanMove(c: Input, s: State, i: nat)
    requires i < |s.workers|
  {
    s.workers[i].Creating? || s.workers[i].Created? || (s.workers[i].Reporting? && |s.errChan| < |c.names|)
  }

  /** When every spawned goroutine has reported and the receiver still waits,
      there is a report to receive: it has taken fewer than were sent. */
  lemma AllReported(c: Input, s: State)
    requires c.Valid() && Inv(c, s) && s.main.Receiving? && s.main.i < s.count && s.winner.None?
    requires forall i :: 0 <= i < |s.workers| ==> !CanMove(c, s, i)
    ensures s.errChan != []
  {
    SpawnedAtMostAll(s.workers);
    forall i | 0 <= i < |s.workers| ensures SpawnedWeight(s.workers[i]) <= FinishedWeight(s.workers[i]) {
      assert !CanMove(c, s, i);
      if s.workers[i].Reporting? { UnfinishedBound(s.workers, i); }
    }
    SumMonotone(s.workers, SpawnedWeight, FinishedWeight);
  }

  lemma {:induction false} SpawnedPositive(ws: seq<Worker>, i: nat)
    requires i < |ws| && !ws[i].Absent?
    ensures SpawnedCount(ws) > 0
  {
    if i > 0 {
      SpawnedPositive(ws[1..], i - 1);
    }
  }

  lemma {:induction false} NoneSpawned(ws: seq<Worker>)
    requires forall i :: 0 <= i < |ws| ==> ws[i].Absent?
    ensures SpawnedCount(ws) == 0
  {
    if ws != [] {
      NoneSpawned(ws[1..]);
    }
  }

  // --- the nil error happens wherever it can ---------------------------------

  lemma Then(c: Input, run: seq<Event>, s: State, e: Event) returns (longer: seq<Event>, t: State)
    requires c.Valid() && Run(c, run) == Some(s) && Enabled(c, s, e)
    ensures t == Apply(c, s, e) && Run(c, longer) == Some(t)
  {
    longer, t := run + [e], Apply(c, s, e);
    assert (run + [e])[..|run|] == run;
  }

  /** No creation has returned yet and the context has not expired. */
  predicate Fresh(s: State) {
    && s.winner.None? && s.errChan == [] && !s.expired
    && forall i :: 0 <= i < |s.workers| ==> s.workers[i].Absent? || s.workers[i].Creating?
  }

  lemma SpawnAll(c: Input, run: seq<Event>, s: State) returns (longer: seq<Event>, t: State)
    requires c.Valid() && Run(c, run) == Some(s) && s.main.Spawning? && Fresh(s)
    requires exists i :: 0 <= i < |c.names| && c.hasClient[i]
    ensures Run(c, longer) == Some(t) && t.main == Receiving(0) && Fresh(t)
    decreases if s.main.Spawning? then |c.names| - s.main.next else 0
  {
    ReachableInv(c, run, s);
    if s.main.next < |c.names| {
      longer, t := Then(c, run, s, Spawn);
      longer, t := SpawnAll(c, longer, t);
    } else {
      var i: nat :| i < |c.names| && c.hasClient[i];
      SpawnedPositive(s.workers, i);
      longer, t := Then(c, run, s, StartReceiving);
    }
  }

  /** `a` has won and waits for the receiver, `b` has lost and is to report nil;
      every other goroutine is still creating, or has finished. */
  predicate Raced(c: Input, s: State, a: nat, b: nat) {
    && |s.workers| == |c.names| && a < |c.names| && b < |c.names| && a != b
    && s.main == Receiving(0) && s.winner == Some(a) && !s.expired
    && s.workers[a].Announcing? && s.workers[b] == Reporting(None)
    && forall i :: 0 <= i < |s.workers| && i != a && i != b ==>
         s.workers[i].Absent? || s.workers[i].Creating? || s.workers[i].Finished?
  }

  lemma Race(c: Input, a: nat, b: nat) returns (run: seq<Event>, s: State)
    requires c.Valid() && c.Succeeds(a) && c.Succeeds(b) && a != b
    ensures Run(c, run) == Some(s) && Raced(c, s, a, b)
  {
    run, s := SpawnAll(c, [], Init(c));
    ReachableInv(c, run, s);
    run, s := Then(c, run, s, CreateReturns(a));
    run, s := Then(c, run, s, CreateReturns(b));
    run, s := Then(c, run, s, CompareAndSwap(a));
    run, s := Then(c, run, s, CompareAndSwap(b));
  }

  predicate Through(w: Worker) { w.Absent? || w.Finished? }

  lemma FinishOne(c: Input, run: seq<Event>, s: State, a: nat, b: nat, i: nat) returns (longer: seq<Event>, t: State)
    requires c.Valid() && Run(c, run) == Some(s) && Raced(c, s, a, b) && i < |c.names| && i != a && i != b
    ensures Run(c, longer) == Some(t) && Raced(c, t, a, b) && Through(t.workers[i])
    ensures forall j :: 0 <= j < |c.names| && j != i ==> t.workers[j] == s.workers[j]
  {
    longer, t := run, s;
    if s.workers[i].Creating? {
      longer, t := Then(c, longer, t, CreateReturns(i));
      if t.workers[i].Created? { longer, t := Then(c, longer, t, CompareAndSwap(i)); }
      ReadyChannel(c, longer, t, i);
      longer, t := Then(c, longer, t, Report(i));
    }
  }

  lemma {:induction false} FinishOthers(c: Input, run: seq<Event>, s: State, a: nat, b: nat, n: nat)
    returns (longer: seq<Event>, t: State)
    requires c.Valid() && Run(c, run) == Some(s) && Raced(c, s, a, b) && n <= |c.names|
    ensures Run(c, longer) == Some(t) && Raced(c, t, a, b)
    ensures forall i :: 0 <= i < n && i != a && i != b ==> Through(t.workers[i])
  {
    longer, t := run, s;
    if n > 0 {
      longer, t := FinishOthers(c, run, s, a, b, n - 1);
      if n - 1 != a && n - 1 != b { longer, t := FinishOne(c, longer, t, a, b, n - 1); }
    }
  }

  /** When only the winner is not through, every other report is on errChan. */
  lemma AllButOneReported(c: Input, run: seq<Event>, s: State, a: nat)
    requires c.Valid() && Run(c, run) == Some(s) && s.main == Receiving(0) && a < |s.workers|
             && s.workers[a].Announcing?
    requires forall i :: 0 <= i < |s.workers| && i != a ==> Through(s.workers[i])
    ensures |s.errChan| == s.count - 1
  {
    ReachableInv(c, run, s);
    var ws := s.workers[a := Finished];
    CountMove(s.workers, a, Finished);
    SumMonotone(ws, FinishedWeight, SpawnedWeight);
    SumMonotone(ws, SpawnedWeight, FinishedWeight);
  }

  /** The receiver takes the reports one by one and keeps the last. */
  lemma {:induction false} Drain(c: Input, run: seq<Event>, s: State) returns (longer: seq<Event>, t: State)
    requires c.Valid() && Run(c, run) == Some(s) && s.main.Receiving? && s.main.i + |s.errChan| == s.count
    requires s.errChan != [] && s.errChan[|s.errChan| - 1].None?
    ensures Run(c, longer) == Some(t) && t.main == Receiving(t.count) && t.createErr.None? && t.workers == s.workers
    decreases |s.errChan|
  {
    longer, t := Then(c, run, s, ReceiveReport);
    if |s.errChan| > 1 { longer, t := Drain(c, longer, t); }
  }

  /** For any input with two successes: the receiver spends one receive on the
      expired context and the others on the losers, of which one that succeeded
      is the last.  Create reports no error for a CR it has marked Unavailable,
      and the winner stays blocked. */
  lemma NilErrorHappens(c: Input) returns (run: seq<Event>, s: State)
    requires c.Valid() && TwoSuccesses(c)
    ensures Run(c, run) == Some(s) && s.main.FellThrough? && s.createErr.None?
    ensures exists i :: 0 <= i < |s.workers| && s.workers[i].Announcing?
  {
    var a: nat, b: nat :| a != b && c.Succeeds(a) && c.Succeeds(b);
    run, s := Race(c, a, b);
    run, s := FinishOthers(c, run, s, a, b, |c.names|);
    ReadyChannel(c, run, s, b);
    run, s := Then(c, run, s, Report(b));
    AllButOneReported(c, run, s, a);
    run, s := Then(c, run, s, Expire);
    run, s := Then(c, run, s, ReceiveDone);
    run, s := Drain(c, run, s);
    run, s := Then(c, run, s, LeaveLoop);
    assert s.workers[a].Announcing?;
  }

  predicate EndsNil(c: Input, run: seq<Event>)
    requires c.Valid()
  {
    Run(c, run).Some? && Run(c, run).value.main.FellThrough? && Run(c, run).value.createErr.None?
  }

  /** Create can return a nil error for a CR it has marked Unavailable exactly
      when two creations succeed. */
  lemma NilErrorExactly(c: Input)
    requires c.Valid()
    ensures (exists run :: EndsNil(c, run)) <==> TwoSuccesses(c)
  {
    if run :| EndsNil(c, run) {
      NilErrorOnFallThrough(c, run, Run(c, run).value);
    }
    if TwoSuccesses(c) {
      var run, s := NilErrorHappens(c);
      assert EndsNil(c, run);
    }
  }
}
