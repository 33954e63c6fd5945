// Observing a bucket: the fan-in of each sub-resource client
// (internal/controller/bucket/lifecycleconfiguration.go:40-92 and its four
// siblings) and the decision of Observe itself (observe.go).

module FanIn {
  import opened Wrappers
  import opened SubResources
  import opened Sums

  const CONTEXT_ERROR: Error := "context deadline exceeded"

  /** What one goroutine sends: its observation, or its error. */
  datatype Message = Observed(o: Observation) | Failed(e: Error) {
    predicate Quiet() { Observed? && o.Quiet() }
  }

  /** An unhealthy backend is passed over with NoAction. */
  function MessageOf(unhealthy: bool, err: Option<Error>, observation: Observation): Message {
    if unhealthy then Observed(NoAction)
    else if err.Some? then Failed(err.value)
    else Observed(observation)
  }

  /** The messages, one per listed backend, whether the receive loop also selects
      on the context (all clients but the ACL one do), and what errors are
      wrapped with. */
  datatype Input = Input(messages: seq<Message>, selectsContext: bool, context: string)

  datatype Answer = Answer(status: Observation, err: Option<Error>)

  const QUIET := Answer(Updated, None)

  /** `sent[i]` once goroutine i got rid of its message on an unbuffered channel. */
  datatype State = State(sent: seq<bool>, i: nat, expired: bool, answer: Option<Answer>)

  datatype Event = Receive(from: nat) | Timeout | LeaveLoop | Expire

  function Init(c: Input): State { State(seq(|c.messages|, _ => false), 0, false, None) }

  predicate Enabled(c: Input, s: State, e: Event)
    requires |s.sent| == |c.messages|
  {
    match e
    case Receive(g) => s.answer.None? && s.i < |c.messages| && g < |c.messages| && !s.sent[g]
    case Timeout => s.answer.None? && s.i < |c.messages| && s.expired && c.selectsContext
    case LeaveLoop => s.answer.None? && s.i == |c.messages|
    case Expire => !s.expired
  }

  function Step(c: Input, s: State, e: Event): State
    requires |s.sent| == |c.messages| && Enabled(c, s, e)
  {
    match e
    case Receive(g) =>
      var t := s.(sent := s.sent[g := true], i := s.i + 1);
      (match c.messages[g]
       case Observed(o) => if o.NeedsUpdate? || o.NeedsDeletion? then t.(answer := Some(Answer(o, None))) else t
       case Failed(err) => t.(answer := Some(Answer(NeedsUpdate, Some(Wrap(err, c.context))))))
    case Timeout => s.(answer := Some(Answer(NeedsUpdate, Some(Wrap(CONTEXT_ERROR, c.context)))))
    case LeaveLoop => s.(answer := Some(QUIET))
    case Expire => s.(expired := true)
  }

  function Run(c: Input, run: seq<Event>): (r: Option<State>)
    ensures r.Some? ==> |r.value.sent| == |c.messages|
  {
    if run == [] then Some(Init(c))
    else
      var before := Run(c, run[..|run| - 1]);
      var last := run[|run| - 1];
      if before.Some? && Enabled(c, before.value, last) then Some(Step(c, before.value, last)) else None
  }

  function SentWeight(b: bool): nat { if b then 1 else 0 }

  /** Every message received but the answering one was quiet, and the loop index
      counts the messages received. */
  ghost predicate Inv(c: Input, s: State)
    requires |s.sent| == |c.messages|
  {
    && s.i == Sum(s.sent, SentWeight) <= |c.messages|
    && (s.answer.None? || s.answer == Some(QUIET) ==>
         forall g :: 0 <= g < |s.sent| && s.sent[g] ==> c.messages[g].Quiet())
    && (s.answer == Some(QUIET) ==> s.i == |c.messages|)
    && (s.answer.Some? && s.answer != Some(QUIET) ==>
          (s.expired && c.selectsContext) || exists g :: 0 <= g < |s.sent| && s.sent[g] && !c.messages[g].Quiet())
  }

  lemma {:induction false} SumAll(s: seq<bool>)
    ensures Sum(s, SentWeight) <= |s|
    ensures Sum(s, SentWeight) == |s| <==> forall g :: 0 <= g < |s| ==> s[g]
  {
    if s != [] {
      SumAll(s[1..]);
      assert (forall g :: 0 <= g < |s| ==> s[g]) <==> s[0] && (forall g :: 0 <= g < |s[1..]| ==> s[1..][g]) by {
        assert forall g :: 0 <= g < |s[1..]| ==> s[1..][g] == s[g + 1];
        assert forall g :: 0 < g < |s| ==> s[g] == s[1..][g - 1];
      }
    }
  }

  lemma {:induction false} SumNone(n: nat)
    ensures Sum(seq(n, _ => false), SentWeight) == 0
  {
    if n > 0 {
      assert seq(n, _ => false)[1..] == seq(n - 1, _ => false);
      SumNone(n - 1);
    }
  }

  lemma StepInv(c: Input, s: State, e: Event)
    requires |s.sent| == |c.messages| && Inv(c, s) && Enabled(c, s, e)
    ensures Inv(c, Step(c, s, e))
  {
    var t := Step(c, s, e);
    if e.Receive? {
      SumUpdate(s.sent, e.from, true, SentWeight);
      SumAll(t.sent);
      if t.answer.Some? { assert t.sent[e.from] && !c.messages[e.from].Quiet(); }
    }
  }

  lemma {:induction false} ReachableInv(c: Input, run: seq<Event>, s: State)
    requires Run(c, run) == Some(s)
    ensures Inv(c, s) && (s.expired <==> Expire in run)
  {
    if run == [] {
      SumNone(|c.messages|);
    } else {
      var p := Run(c, run[..|run| - 1]).value;
      ReachableInv(c, run[..|run| - 1], p);
      StepInv(c, p, run[|run| - 1]);
      assert run == run[..|run| - 1] + [run[|run| - 1]];
    }
  }

  /** Without expiry, or where the loop does not look at the context, the answer
      is (Updated, nil) exactly when every backend is unhealthy or was observed
      NoAction or Updated, whatever the order of the messages; with expiry
      (Updated, nil) still means that. */
  lemma FanInExact(c: Input, run: seq<Event>, s: State)
    requires Run(c, run) == Some(s) && s.answer.Some?
    ensures s.answer == Some(QUIET) ==> forall g :: 0 <= g < |c.messages| ==> c.messages[g].Quiet()
    ensures Expire !in run || !c.selectsContext ==>
              (s.answer == Some(QUIET) <==> forall g :: 0 <= g < |c.messages| ==> c.messages[g].Quiet())
  {
    ReachableInv(c, run, s);
    SumAll(s.sent);
  }

  /** The answer to one unquiet message, or to the expired context. */
  predicate AnswersTo(c: Input, m: Message, a: Answer) {
    match m
    case Observed(o) => !o.Quiet() && a.status == o && a.err.None?
    case Failed(e) => a.status.NeedsUpdate? && a.err == Some(Wrap(e, c.context))
  }

  predicate AnswersExpiry(c: Input, a: Answer) {
    c.selectsContext && a.status.NeedsUpdate? && a.err == Some(Wrap(CONTEXT_ERROR, c.context))
  }

  /** Any other answer is that of the one unquiet message received: its own
      observation without an error, or NeedsUpdate with its error; or else the
      context has expired. */
  lemma {:induction false} UnquietAnswer(c: Input, run: seq<Event>, s: State)
    requires Run(c, run) == Some(s) && s.answer.Some? && s.answer != Some(QUIET)
    ensures || (Expire in run && AnswersExpiry(c, s.answer.value))
            || exists g :: 0 <= g < |c.messages| && s.sent[g] && AnswersTo(c, c.messages[g], s.answer.value)
  {
    var p := Run(c, run[..|run| - 1]).value;
    var last := run[|run| - 1];
    assert run == run[..|run| - 1] + [last];
    ReachableInv(c, run[..|run| - 1], p);
    if last.Expire? {
      UnquietAnswer(c, run[..|run| - 1], p);
    } else if last.Receive? {
      assert s.sent[last.from] && AnswersTo(c, c.messages[last.from], s.answer.value);
    }
  }

  /** What one listed backend has to tell. */
  datatype Backend = Backend(unhealthy: bool, err: Option<Error>, observation: Observation)

  function MessagesOf(bs: seq<Backend>): seq<Message> {
    seq(|bs|, i requires 0 <= i < |bs| => MessageOf(bs[i].unhealthy, bs[i].err, bs[i].observation))
  }

  /** Said of the backends: without expiry the answer is (Updated, nil) exactly if
      each is unhealthy or was observed, without an error, NoAction or Updated;
      any other answer is that of one healthy backend. */
  lemma FanInOnBackends(bs: seq<Backend>, selectsContext: bool, context: string, run: seq<Event>, s: State)
    requires Run(Input(MessagesOf(bs), selectsContext, context), run) == Some(s) && s.answer.Some? && Expire !in run
    ensures s.answer == Some(QUIET) <==>
              forall b :: b in bs ==> b.unhealthy || (b.err.None? && b.observation.Quiet())
    ensures s.answer != Some(QUIET) ==>
              exists b :: b in bs && !b.unhealthy
                && if b.err.Some? then s.answer == Some(Answer(NeedsUpdate, Some(Wrap(b.err.value, context))))
                   else !b.observation.Quiet() && s.answer == Some(Answer(b.observation, None))
  {
    var c := Input(MessagesOf(bs), selectsContext, context);
    FanInExact(c, run, s);
    forall i | 0 <= i < |bs|
      ensures c.messages[i].Quiet() <==> bs[i].unhealthy || (bs[i].err.None? && bs[i].observation.Quiet())
    {
    }
    if s.answer != Some(QUIET) {
      UnquietAnswer(c, run, s);
      var g :| 0 <= g < |c.messages| && s.sent[g] && AnswersTo(c, c.messages[g], s.answer.value);
      assert bs[g] in bs;
    }
  }

  /** The receiver is never stuck: until it answers, something other than expiry
      can happen. */
  lemma Progress(c: Input, run: seq<Event>, s: State)
    requires Run(c, run) == Some(s) && s.answer.None?
    ensures exists e :: e != Expire && Enabled(c, s, e)
  {
    ReachableInv(c, run, s);
    SumAll(s.sent);
    if s.i == |c.messages| {
      assert Enabled(c, s, LeaveLoop);
    } else {
      var g :| 0 <= g < |s.sent| && !s.sent[g];
      assert Enabled(c, s, Receive(g));
    }
  }

  // --- senders left behind -------------------------------------------------------

  /** The receiver has answered, so nobody receives any more, and some goroutine
      has not got rid of its message: it is blocked on its channel for ever. */
  ghost predicate LeavesBlocked(c: Input, run: seq<Event>) {
    && Run(c, run).Some? && Run(c, run).value.answer.Some?
    && exists g :: 0 <= g < |c.messages| && !Run(c, run).value.sent[g]
  }

  /** Somebody can be left blocked, without expiry, exactly when there are two
      messages or more and one of them is not quiet. */
  lemma BlockedSenders(c: Input)
    ensures (exists run :: LeavesBlocked(c, run) && Expire !in run) <==>
            |c.messages| >= 2 && exists g :: 0 <= g < |c.messages| && !c.messages[g].Quiet()
  {
    if run :| LeavesBlocked(c, run) && Expire !in run { BlockedCause(c, run); }
    if |c.messages| >= 2 && exists g :: 0 <= g < |c.messages| && !c.messages[g].Quiet() {
      var run := BlockOthers(c);
    }
  }

  /** With expiry, where the loop selects on the context, any message will do. */
  lemma BlockedSendersWithExpiry(c: Input)
    ensures (exists run :: LeavesBlocked(c, run)) <==>
            || (c.selectsContext && c.messages != [])
            || (|c.messages| >= 2 && exists g :: 0 <= g < |c.messages| && !c.messages[g].Quiet())
  {
    if run :| LeavesBlocked(c, run) { BlockedCause(c, run); }
    if c.selectsContext && c.messages != [] {
      var run, s := Then(c, [], Init(c), Expire);
      run, s := Then(c, run, s, Timeout);
      assert !s.sent[0] && LeavesBlocked(c, run);
    } else if |c.messages| >= 2 && exists g :: 0 <= g < |c.messages| && !c.messages[g].Quiet() {
      var run := BlockOthers(c);
    }
  }

  /** A goroutine is blocked only if the answer came from an unquiet message
      that was not the only one, or from the context. */
  lemma BlockedCause(c: Input, run: seq<Event>)
    requires LeavesBlocked(c, run)
    ensures || (Expire in run && c.selectsContext && c.messages != [])
            || (|c.messages| >= 2 && exists g :: 0 <= g < |c.messages| && !c.messages[g].Quiet())
  {
    var s := Run(c, run).value;
    ReachableInv(c, run, s);
    SumAll(s.sent);
    var blocked :| 0 <= blocked < |c.messages| && !s.sent[blocked];
    if !(s.expired && c.selectsContext) {
      var g :| 0 <= g < |s.sent| && s.sent[g] && !c.messages[g].Quiet();
      assert g != blocked;
    }
  }

  /** The unquiet message comes first; all others wait for ever. */
  lemma BlockOthers(c: Input) returns (run: seq<Event>)
    requires |c.messages| >= 2 && exists g :: 0 <= g < |c.messages| && !c.messages[g].Quiet()
    ensures LeavesBlocked(c, run) && Expire !in run
  {
    var g :| 0 <= g < |c.messages| && !c.messages[g].Quiet();
    var s;
    run, s := Then(c, [], Init(c), Receive(g));
    assert !s.sent[if g == 0 then 1 else 0];
  }

  lemma Then(c: Input, run: seq<Event>, s: State, e: Event) returns (longer: seq<Event>, t: State)
    requires Run(c, run) == Some(s) && Enabled(c, s, e)
    ensures longer == run + [e] && t == Step(c, s, e) && Run(c, longer) == Some(t)
  {
    longer, t := run + [e], Step(c, s, e);
    assert (run + [e])[..|run|] == run;
  }
}

module Observing {
  import opened Wrappers
  import opened Api
  import opened SharedTable
  import opened Labelling
  import opened Pausing
  import opened SubResources
  import FanIn

  const ERR_NO_BACKENDS: Error := "no s3 backends stored in backendstore"
  const ERR_ALL_DISABLED: Error :=
    "all s3 backends have been disabled for this bucket - please check cr labels"
  const ERR_OBSERVE_SUBRESOURCE := "failed to observe bucket subresource"

  datatype ExternalObservation = ExternalObservation(exists_: bool, upToDate: bool)

  /** What one Observe meets: the stored backends, the answer of each sub-resource
      client, and for each backend with a client what HeadBucket said. */
  datatype World = World(
    backends: seq<string>,
    subresources: seq<FanIn.Answer>,
    heads: map<string, Result<bool, Error>>,
    autopauseEnabled: bool)

  function Targets(cr: CR, w: World): seq<string> {
    Chosen(cr.labels, if cr.spec.providers == [] then w.backends else cr.spec.providers)
  }

  /** The clients are those of the stored backends among the targets. */
  predicate WellFormed(cr: CR, w: World) {
    w.heads.Keys == set n | n in w.backends && n in Targets(cr, w)
  }

  /** Nothing speaks against the recorded state: the CR is paused if it should
      be, Ready, available on all online targets, its sub-resources are quiet
      and no backend misses the bucket. */
  predicate InOrder(cr: CR, w: World) {
    && ((cr.spec.autoPause || w.autopauseEnabled) ==> PauseLabel(cr.labels) == TRUE_STR)
    && cr.status.GetCondition(Ready) == AVAILABLE
    && (forall n :: n in Targets(cr, w) && n in w.backends ==> AvailableOn(cr.status.backends, w.heads.Keys, n))
    && (forall i :: 0 <= i < |w.subresources| ==> w.subresources[i].err.None? && w.subresources[i].status.Quiet())
    && (forall n :: n in w.heads ==> w.heads[n] != Ok(false))
  }

  /** The recorded state passes the checks that come before the choice of targets. */
  predicate PausedAndReady(cr: CR, w: World) {
    && ((cr.spec.autoPause || w.autopauseEnabled) ==> PauseLabel(cr.labels) == TRUE_STR)
    && cr.status.GetCondition(Ready) == AVAILABLE
  }

  predicate RecordedOnTargets(cr: CR, w: World) {
    forall n :: n in Targets(cr, w) && n in w.backends ==> AvailableOn(cr.status.backends, w.heads.Keys, n)
  }

  /** The i-th client is the first that is not quiet, and it errs. */
  predicate ErrsFirst(w: World, i: int) {
    && 0 <= i < |w.subresources| && w.subresources[i].err.Some?
    && forall j :: 0 <= j < i ==> w.subresources[j].err.None? && w.subresources[j].status.Quiet()
  }

  predicate AllDisabled(cr: CR, w: World) {
    cr.status.backends != map[] && PausedAndReady(cr, w) && Targets(cr, w) == []
  }

  ghost predicate ClientErrs(cr: CR, w: World) {
    && cr.status.backends != map[] && PausedAndReady(cr, w) && Targets(cr, w) != [] && RecordedOnTargets(cr, w)
    && exists i :: ErrsFirst(w, i)
  }

  /** Observe: a sub-resource loop with early returns, then one HeadBucket per
      backend, whose connection errors are ignored. */
  method Observe(cr: CR, w: World) returns (r: Result<ExternalObservation, Error>)
    requires WellFormed(cr, w)
    ensures w.backends == [] ==> r == Err(ERR_NO_BACKENDS)
    ensures r.Ok? ==> (!r.value.exists_ <==> cr.status.backends == map[] && !(cr.spec.disabled && !cr.beingDeleted))
    ensures r.Ok? ==> (r.value.upToDate <==> cr.status.backends == map[] || (!cr.spec.disabled && InOrder(cr, w)))
    ensures r.Err? && w.backends != [] && Targets(cr, w) != [] ==>
              exists i :: 0 <= i < |w.subresources| && w.subresources[i].err.Some?
    ensures r.Err? && w.backends != [] ==> cr.status.backends != map[]
    ensures r.Err? <==> w.backends == [] || AllDisabled(cr, w) || ClientErrs(cr, w)
    ensures w.backends != [] && AllDisabled(cr, w) ==> r == Err(ERR_ALL_DISABLED)
    ensures w.backends != [] && ClientErrs(cr, w) ==>
              forall i :: ErrsFirst(w, i) ==> r == Err(Wrap(w.subresources[i].err.value, ERR_OBSERVE_SUBRESOURCE))
  {
    if w.backends == [] { return Err(ERR_NO_BACKENDS); }
    if |cr.status.backends| == 0 {
      assert cr.status.backends == map[];
      return Ok(ExternalObservation(cr.spec.disabled && !cr.beingDeleted, true));
    }
    var bucket := new Bucket(cr);
    var paused := IsBucketPaused(bucket);
    if (cr.spec.autoPause || w.autopauseEnabled) && !paused { return Ok(ExternalObservation(true, false)); }
    if cr.status.GetCondition(Ready) != AVAILABLE { return Ok(ExternalObservation(true, false)); }

    var names := GetBucketProvidersFilterDisabledLabel(bucket, w.backends);
    if |names| == 0 { return Err(ERR_ALL_DISABLED); }
    var available := IsBucketAvailableFromStatus(bucket, names, w.heads.Keys);
    if !available { return Ok(ExternalObservation(true, false)); }

    var quiet := SubresourcesQuiet(w);
    if quiet.Err? { return Err(quiet.error); }
    if !quiet.value { return Ok(ExternalObservation(true, false)); }

    var missing := BucketMissing(w.heads);
    r := Ok(ExternalObservation(true, !cr.spec.disabled && !missing));
  }

  /** The loop over the sub-resource clients, up to the first that is not quiet. */
  method SubresourcesQuiet(w: World) returns (r: Result<bool, Error>)
    ensures r == Ok(true) <==>
            forall i :: 0 <= i < |w.subresources| ==> w.subresources[i].err.None? && w.subresources[i].status.Quiet()
    ensures r.Err? <==> exists i :: ErrsFirst(w, i)
    ensures forall i :: ErrsFirst(w, i) ==> r == Err(Wrap(w.subresources[i].err.value, ERR_OBSERVE_SUBRESOURCE))
  {
    for i := 0 to |w.subresources|
      invariant forall j :: 0 <= j < i ==> w.subresources[j].err.None? && w.subresources[j].status.Quiet()
    {
      var a := w.subresources[i];
      if a.err.Some? {
        assert ErrsFirst(w, i);
        return Err(Wrap(a.err.value, ERR_OBSERVE_SUBRESOURCE));
      }
      if a.status.NeedsUpdate? || a.status.NeedsDeletion? { return Ok(false); }
    }
    r := Ok(true);
  }

  /** The errgroup over the backends: an error only where the bucket is missing. */
  method BucketMissing(heads: map<string, Result<bool, Error>>) returns (missing: bool)
    ensures missing <==> exists n :: n in heads && heads[n] == Ok(false)
  {
    var todo := heads.Keys;
    missing := false;
    while todo != {}
      invariant todo <= heads.Keys
      invariant missing <==> exists n :: n in heads && n !in todo && heads[n] == Ok(false)
    {
      var n :| n in todo;
      todo := todo - {n};
      if heads[n].Ok? && !heads[n].value { missing := true; }
    }
  }
}
