// The health-check controller's part: unpausing the buckets of a recovered
// backend, and the error text it stores
// (internal/controller/providerconfig/healthcheck/{healthcheck_controller,helpers}.go).

module PauseAutomaton {
  import opened Wrappers
  import opened Api
  import opened Labelling
  import opened Pausing
  import opened Reconcile

  /** The label selector of unpauseBuckets. */
  predicate Selected(labels: Labels, backend: string) {
    && Label(backend) in labels && labels[Label(backend)] == TRUE_STR
    && PauseLabel(labels) == TRUE_STR
  }

  function Unpaused(cr: CR): CR { cr.(labels := cr.labels[PAUSED_LABEL := ""]) }

  // --- unpauseBuckets, with its retries ---------------------------------------------

  /** How a call of the API server ends; only API errors are retried. */
  datatype CallResult = Accepted | ApiError | OtherError

  const STEPS := 4

  /** Some attempt succeeds, and all before it met an API error. */
  predicate SucceedsWithRetry(call: nat -> CallResult) {
    exists k: nat :: k < STEPS && call(k).Accepted? && forall j: nat :: j < k ==> call(j).ApiError?
  }

  method ListWithRetry(list: nat -> CallResult) returns (ok: bool)
    ensures ok <==> SucceedsWithRetry(list)
  {
    for k: int := 0 to STEPS
      invariant forall j: nat :: j < k ==> list(j).ApiError?
    {
      if list(k).Accepted? { return true; }
      if list(k).OtherError? { return false; }
    }
    ok := false;
  }

  predicate ToUnpause(spec: Spec, labels: Labels, autopause: bool) {
    (autopause || spec.autoPause) && PauseLabel(labels) == TRUE_STR
  }

  /** One listed bucket: its in-memory label is changed before the call, so after
      an API error the next attempt finds nothing to do and ends without error.
      There is one call at most; the stored bucket is unpaused exactly if that
      one is accepted, and an error is left to log only if it is no API error. */
  method UnpauseOne(item: Bucket, autopause: bool, update: nat -> CallResult)
    returns (stored: bool, calls: nat, err: Option<CallResult>)
    modifies item`labels
    ensures var wanted := ToUnpause(item.spec, old(item.labels), autopause);
            && calls == (if wanted then 1 else 0)
            && stored == (wanted && update(0).Accepted?)
            && err == (if wanted && update(0).OtherError? then Some(OtherError) else None)
            && item.labels == if wanted then old(item.labels)[PAUSED_LABEL := ""] else old(item.labels)
  {
    stored, calls, err := false, 0, None;
    var attempt := 0;
    while attempt < STEPS
      invariant attempt == calls <= 1 && !stored && err.None?
      invariant calls == 0 ==> item.labels == old(item.labels)
      invariant calls == 1 ==> ToUnpause(item.spec, old(item.labels), autopause) && update(0).ApiError?
                               && item.labels == old(item.labels)[PAUSED_LABEL := ""]
      decreases STEPS - attempt
    {
      if !ToUnpause(item.spec, item.labels, autopause) { return; }
      item.labels := item.labels[PAUSED_LABEL := ""];
      var r := update(calls);
      calls, attempt := calls + 1, attempt + 1;
      if r.Accepted? { return true, calls, None; }
      if r.OtherError? { return false, calls, Some(OtherError); }
    }
  }

  /** The whole of it: nothing if the buckets cannot be listed; otherwise exactly
      the selected ones under autopause whose first update call is accepted are
      unpaused, and only those whose first call meets another error are logged. */
  method UnpauseBuckets(crs: map<string, CR>, backend: string, autopause: bool, list: nat -> CallResult,
                        update: (string, nat) -> CallResult)
    returns (after: map<string, CR>, logged: set<string>)
    ensures after.Keys == crs.Keys
    ensures forall n :: n in crs && !(LabelledTrue(crs[n].labels, backend) && PauseLabel(crs[n].labels) == TRUE_STR) ==>
              after[n] == crs[n]
    ensures forall n :: n in crs ==>
              after[n] == if SucceedsWithRetry(list) && Tried(crs[n], backend, autopause) && update(n, 0).Accepted?
                          then Unpaused(crs[n]) else crs[n]
    ensures forall n :: n in logged <==>
              SucceedsWithRetry(list) && n in crs && Tried(crs[n], backend, autopause) && update(n, 0).OtherError?
  {
    var ok := ListWithRetry(list);
    if !ok { return crs, {}; }
    after, logged := UnpauseListed(crs, (set n | n in crs && Selected(crs[n].labels, backend)), autopause, update);
  }

  /** The loop over the listed buckets. */
  method UnpauseListed(crs: map<string, CR>, items: set<string>, autopause: bool, update: (string, nat) -> CallResult)
    returns (after: map<string, CR>, logged: set<string>)
    requires items <= crs.Keys
    ensures after.Keys == crs.Keys
    ensures forall n :: n in crs ==>
              after[n] == if n in items && ToUnpause(crs[n].spec, crs[n].labels, autopause) && update(n, 0).Accepted?
                          then Unpaused(crs[n]) else crs[n]
    ensures forall n :: n in logged <==>
              n in items && ToUnpause(crs[n].spec, crs[n].labels, autopause) && update(n, 0).OtherError?
  {
    after, logged := crs, {};
    var todo := items;
    while todo != {}
      invariant todo <= items && after.Keys == crs.Keys
      invariant forall n :: n in crs ==>
                  after[n] == if n in items - todo && ToUnpause(crs[n].spec, crs[n].labels, autopause)
                                 && update(n, 0).Accepted? then Unpaused(crs[n]) else crs[n]
      invariant forall n :: n in logged <==>
                  n in items - todo && ToUnpause(crs[n].spec, crs[n].labels, autopause) && update(n, 0).OtherError?
    {
      var n :| n in todo;
      todo := todo - {n};
      var item := new Bucket(crs[n]);
      var stored, _, err := UnpauseOne(item, autopause, (k: nat) => update(n, k));
      if stored { after := after[n := crs[n].(labels := item.labels)]; }
      if err.Some? { logged := logged + {n}; }
    }
  }

  predicate Tried(cr: CR, backend: string, autopause: bool) {
    Selected(cr.labels, backend) && (autopause || cr.spec.autoPause)
  }

  // --- the label over whole runs -------------------------------------------------

  /** The operations that write labels, each with successful API calls: an Update
      with whatever status and table, a Create that found no backend to create on
      or that created the bucket on some, and the recovery of a backend. */
  datatype Action =
    | UpdateCR(status: Status, names: seq<string>, clients: set<string>, table: Backends, autopause: bool)
    | CreateWithoutBackend(names: seq<string>)
    | CreateReady(names: seq<string>)
    | Recovers(backend: string, autopauseThere: bool)
  {
    /** The backends it labels. */
    function Labelled(): seq<string> { if Recovers? then [] else names }
  }

  function Act(spec: Spec, labels: Labels, a: Action): Labels {
    match a
    case UpdateCR(status, names, clients, table, autopause) =>
      LabelsAfterUpdate(spec, labels, status, names, clients, table, autopause)
    case CreateWithoutBackend(names) => AfterSetAll(labels, names)[PAUSED_LABEL := TRUE_STR]
    case CreateReady(names) => AfterSetAll(labels, names)
    case Recovers(backend, autopause) =>
      if Selected(labels, backend) && (autopause || spec.autoPause) then labels[PAUSED_LABEL := ""] else labels
  }

  function Play(spec: Spec, labels: Labels, actions: seq<Action>): Labels
    decreases actions
  {
    if actions == [] then labels else Play(spec, Act(spec, labels, actions[0]), actions[1..])
  }

  lemma PausedIsNoBackendLabel(backend: string)
    ensures PAUSED_LABEL != Label(backend)
  {
    assert Label(backend)[0] == BACKEND_LABEL_PREFIX[0] != PAUSED_LABEL[0];
  }

  /** What Update makes of the pause label.  The label is safe unless a backend
      bearing its very name is enabled: then setAllBackendLabels, which runs
      last, deletes it. */
  lemma UpdateMovesLabel(spec: Spec, labels: Labels, status: Status, names: seq<string>, clients: set<string>,
                         table: Backends, autopause: bool)
    ensures PauseLabel(LabelsAfterUpdate(spec, labels, status, names, clients, table, autopause)) ==
            if PAUSED_LABEL in EnabledBackends(labels) then ""
            else if PauseRequired(spec, labels, status, names, clients, table, autopause) then TRUE_STR
            else PauseLabel(labels)
  {
    var pause := PauseRequired(spec, labels, status, names, clients, table, autopause);
    var mid := if pause then labels[PAUSED_LABEL := TRUE_STR] else labels;
    EnabledByLabel(labels, PAUSED_LABEL);
    EnabledByLabel(mid, PAUSED_LABEL);
    PausedIsNoBackendLabel(PAUSED_LABEL);
    InLabelsOf(names, PAUSED_LABEL);
    if n :| n in names && PAUSED_LABEL == Label(n) { PausedIsNoBackendLabel(n); }
  }

  /** No backend that is enabled, or that one of the actions labels, is named
      like this label key; so setAllBackendLabels never deletes that label. */
  predicate Safe(key: string, labels: Labels, actions: seq<Action>) {
    && key !in EnabledBackends(labels)
    && forall a :: a in actions ==> key !in a.Labelled()
  }

  lemma ActKeepsSafe(spec: Spec, labels: Labels, a: Action, key: string)
    requires key !in EnabledBackends(labels) && key !in a.Labelled()
    ensures key !in EnabledBackends(Act(spec, labels, a))
  {
    var after := Act(spec, labels, a);
    EnabledByLabel(labels, key);
    EnabledByLabel(after, key);
    PausedIsNoBackendLabel(key);
    if !a.Recovers? {
      InLabelsOf(a.names, Label(key));
      if n :| n in a.names && Label(key) == Label(n) { LabelInjective(key, n); }
    }
  }

  /** One step of the automaton: Update moves the label only from absent or empty
      to "true", a recovery only from "true" to empty, a Create without a backend
      always to "true". */
  lemma AutomatonStep(spec: Spec, labels: Labels, a: Action)
    requires PAUSED_LABEL !in EnabledBackends(labels)
    ensures var p, q := PauseLabel(labels), PauseLabel(Act(spec, labels, a));
            if a.CreateWithoutBackend? then q == TRUE_STR
            else q == p || (a.UpdateCR? && p == "" && q == TRUE_STR) || (a.Recovers? && p == TRUE_STR && q == "")
  {
    if a.UpdateCR? { UpdateMovesLabel(spec, labels, a.status, a.names, a.clients, a.table, a.autopause); }
    if a.CreateReady? {
      InLabelsOf(a.names, PAUSED_LABEL);
      if n :| n in a.names && PAUSED_LABEL == Label(n) { PausedIsNoBackendLabel(n); }
    }
  }

  /** Over any run a value the user chose, neither empty nor "true", stays exactly
      when no Create in it finds itself without a backend. */
  lemma {:induction false} UserValueStays(spec: Spec, labels: Labels, actions: seq<Action>)
    requires Safe(PAUSED_LABEL, labels, actions) && PauseLabel(labels) !in {"", TRUE_STR}
    ensures PauseLabel(Play(spec, labels, actions)) == PauseLabel(labels) <==>
            forall a :: a in actions ==> !a.CreateWithoutBackend?
    decreases actions
  {
    if actions != [] {
      var a := actions[0];
      assert actions == [a] + actions[1..];
      AutomatonStep(spec, labels, a);
      ActKeepsSafe(spec, labels, a, PAUSED_LABEL);
      if a.CreateWithoutBackend? {
        NeverTheUsersAgain(spec, Act(spec, labels, a), actions[1..]);
      } else {
        UserValueStays(spec, Act(spec, labels, a), actions[1..]);
      }
    }
  }

  /** Once the label is empty or "true" it stays one of them. */
  lemma {:induction false} NeverTheUsersAgain(spec: Spec, labels: Labels, actions: seq<Action>)
    requires Safe(PAUSED_LABEL, labels, actions) && PauseLabel(labels) in {"", TRUE_STR}
    ensures PauseLabel(Play(spec, labels, actions)) in {"", TRUE_STR}
    decreases actions
  {
    if actions != [] {
      assert actions == [actions[0]] + actions[1..];
      AutomatonStep(spec, labels, actions[0]);
      ActKeepsSafe(spec, labels, actions[0], PAUSED_LABEL);
      NeverTheUsersAgain(spec, Act(spec, labels, actions[0]), actions[1..]);
    }
  }

  // --- unpausing what was paused -----------------------------------------------------

  /** The recovery of a backend the CR is not labelled for leaves the CR alone, and
      so does any recovery while it is not paused or autopause is off. */
  lemma OnlyItsOwnRecovery(spec: Spec, labels: Labels, backend: string, autopause: bool)
    ensures Act(spec, labels, Recovers(backend, autopause)) != labels ==>
              LabelledTrue(labels, backend) && PauseLabel(labels) == TRUE_STR && (autopause || spec.autoPause)
  {
  }

  predicate LabelledTrue(labels: Labels, n: string) { Label(n) in labels && labels[Label(n)] == TRUE_STR }

  lemma ActKeepsLabelled(spec: Spec, labels: Labels, a: Action, n: string)
    requires LabelledTrue(labels, n) && Label(n) !in EnabledBackends(labels)
    ensures LabelledTrue(Act(spec, labels, a), n)
  {
    PausedIsNoBackendLabel(n);
    if a.UpdateCR? {
      var paused := labels[PAUSED_LABEL := TRUE_STR];
      EnabledByLabel(labels, Label(n));
      EnabledByLabel(paused, Label(n));
      PausedIsNoBackendLabel(Label(n));
      LabelSurvives(labels, a.names, Label(n));
      LabelSurvives(paused, a.names, Label(n));
    } else if !a.Recovers? {
      LabelSurvives(labels, a.names, Label(n));
    }
  }

  /** A labelled target keeps its label over any run, so whenever the bucket is
      paused then, that backend's recovery selects it, and unpauses it exactly
      when autopause is on, for all buckets or for this one. */
  lemma {:induction false} TargetStaysSelectable(spec: Spec, labels: Labels, later: seq<Action>, n: string,
      autopause: bool)
    requires LabelledTrue(labels, n) && Safe(Label(n), labels, later)
    ensures var end := Play(spec, labels, later);
            && LabelledTrue(end, n)
            && (PauseLabel(end) == TRUE_STR ==>
                  && Selected(end, n)
                  && (PauseLabel(Act(spec, end, Recovers(n, autopause))) == "" <==> autopause || spec.autoPause))
    decreases later
  {
    if later != [] {
      assert later == [later[0]] + later[1..];
      ActKeepsLabelled(spec, labels, later[0], n);
      ActKeepsSafe(spec, labels, later[0], Label(n));
      TargetStaysSelectable(spec, Act(spec, labels, later[0]), later[1..], n, autopause);
    }
  }

  /** A bucket that Update paused is selected and unpaused when any one of its
      target backends recovers: at once, and also after whatever follows, if it
      is still paused then. */
  lemma AutoPausedIsUnpaused(spec: Spec, labels: Labels, providers: seq<string>, status: Status, clients: set<string>,
                             table: Backends, autopause: bool, later: seq<Action>, recovered: string)
    requires PAUSED_LABEL !in EnabledBackends(labels)
    requires var names := Chosen(labels, providers);
             PauseRequired(spec, labels, status, names, clients, table, autopause) && recovered in names
    ensures var after := Act(spec, labels, UpdateCR(status, Chosen(labels, providers), clients, table, autopause));
            var end := Play(spec, after, later);
            && PauseLabel(after) == TRUE_STR
            && UnpausedBy(spec, after, recovered, autopause)
            && (Safe(Label(recovered), after, later) && PauseLabel(end) == TRUE_STR ==>
                  UnpausedBy(spec, end, recovered, autopause))
  {
    var names := Chosen(labels, providers);
    var after := LabelsAfterUpdate(spec, labels, status, names, clients, table, autopause);
    UpdateMovesLabel(spec, labels, status, names, clients, table, autopause);
    PausedTargetLabelled(labels, providers, recovered);
    UnpausedNowAndLater(spec, after, later, recovered, autopause);
  }

  lemma UnpausedNowAndLater(spec: Spec, after: Labels, later: seq<Action>, n: string, autopause: bool)
    requires PauseLabel(after) == TRUE_STR && LabelledTrue(after, n) && (autopause || spec.autoPause)
    ensures UnpausedBy(spec, after, n, autopause)
    ensures var end := Play(spec, after, later);
            Safe(Label(n), after, later) && PauseLabel(end) == TRUE_STR ==> UnpausedBy(spec, end, n, autopause)
  {
    if Safe(Label(n), after, later) {
      TargetStaysSelectable(spec, after, later, n, autopause);
    }
  }

  lemma PausedTargetLabelled(labels: Labels, providers: seq<string>, n: string)
    requires n in Chosen(labels, providers)
    ensures LabelledTrue(AfterSetAll(labels[PAUSED_LABEL := TRUE_STR], Chosen(labels, providers)), n)
  {
    var mid := labels[PAUSED_LABEL := TRUE_STR];
    forall p | p in providers ensures DisabledByLabel(mid, p) <==> DisabledByLabel(labels, p) {
      PausedIsNoBackendLabel(p);
    }
    SameChoice(labels, mid, providers);
    ChosenBecomeEnabled(mid, providers, n);
    EnabledByLabel(AfterSetAll(mid, Chosen(labels, providers)), n);
  }

  /** The backend's recovery selects the bucket and empties its pause label. */
  predicate UnpausedBy(spec: Spec, labels: Labels, backend: string, autopause: bool) {
    Selected(labels, backend) && PauseLabel(Act(spec, labels, Recovers(backend, autopause))) == ""
  }

  /** A bucket that Create paused for want of a backend is unpaused by the
      recovery of a chosen backend, at once or after whatever follows, exactly
      when autopause is on. */
  lemma CreatePausedIsUnpaused(spec: Spec, labels: Labels, providers: seq<string>, later: seq<Action>,
                               recovered: string, autopause: bool)
    requires recovered in Chosen(labels, providers)
    ensures var created := Act(spec, labels, CreateWithoutBackend(Chosen(labels, providers)));
            var end := Play(spec, created, later);
            && PauseLabel(created) == TRUE_STR && Selected(created, recovered)
            && (UnpausedBy(spec, created, recovered, autopause) <==> autopause || spec.autoPause)
            && (Safe(Label(recovered), created, later) && PauseLabel(end) == TRUE_STR ==>
                  (UnpausedBy(spec, end, recovered, autopause) <==> autopause || spec.autoPause))
  {
    var names := Chosen(labels, providers);
    var created := Act(spec, labels, CreateWithoutBackend(names));
    ChosenBecomeEnabled(labels, providers, recovered);
    EnabledByLabel(AfterSetAll(labels, names), recovered);
    PausedIsNoBackendLabel(recovered);
    if Safe(Label(recovered), created, later) {
      TargetStaysSelectable(spec, created, later, recovered, autopause);
    }
  }
}

module RequestIds {
  import opened Strings

  const REQUEST_ID := "RequestID"

  /** strings.Split(s, ","): one part more than there are commas. */
  function Split(s: string): (parts: seq<string>)
    ensures parts != [] && forall p :: p in parts ==> ',' !in p
  {
    if s == [] then [""]
    else
      var rest := Split(s[1..]);
      if s[0] == ',' then [""] + rest
      else
        assert rest[0] in rest;
        [[s[0]] + rest[0]] + rest[1..]
  }

  /** strings.Contains. */
  predicate Contains(s: string, word: string) {
    word <= s || (s != [] && Contains(s[1..], word))
  }

  predicate StandsAt(s: string, word: string, i: int) { 0 <= i <= |s| - |word| && s[i..i + |word|] == word }

  /** The text contains the word exactly if that stands at some position. */
  lemma {:induction false} ContainsExactly(s: string, word: string)
    ensures Contains(s, word) <==> exists i :: StandsAt(s, word, i)
  {
    assert word <= s <==> StandsAt(s, word, 0);
    if s != [] {
      ContainsExactly(s[1..], word);
      forall i ensures StandsAt(s[1..], word, i) <==> i >= 0 && StandsAt(s, word, i + 1) {
        if 0 <= i <= |s[1..]| - |word| { assert s[1..][i..i + |word|] == s[i + 1..i + 1 + |word|]; }
      }
      if i :| StandsAt(s[1..], word, i) { assert StandsAt(s, word, i + 1); }
      if i :| StandsAt(s, word, i) && i > 0 { assert StandsAt(s[1..], word, i - 1); }
    }
  }

  function Clean(parts: seq<string>): (r: seq<string>)
    ensures forall p :: p in r <==> p in parts && !Contains(p, REQUEST_ID)
  {
    if parts == [] then []
    else
      var rest := Clean(parts[1..]);
      assert parts == [parts[0]] + parts[1..];
      if Contains(parts[0], REQUEST_ID) then rest else [parts[0]] + rest
  }

  function WithoutRequestID(message: string): string { Join(Clean(Split(message)), ",") }

  method ErrNoRequestID(message: string) returns (r: string)
    ensures r == WithoutRequestID(message)
  {
    var parts := Split(message);
    var filtered: seq<string> := [];
    for i := 0 to |parts|
      invariant filtered == Clean(parts[..i])
    {
      CleanAppend(parts[..i], parts[i]);
      assert parts[..i + 1] == parts[..i] + [parts[i]];
      if !Contains(parts[i], REQUEST_ID) { filtered := filtered + [parts[i]]; }
    }
    assert parts[..|parts|] == parts;
    r := Join(filtered, ",");
  }

  lemma {:induction false} CleanAppend(parts: seq<string>, p: string)
    ensures Clean(parts + [p]) == Clean(parts) + if Contains(p, REQUEST_ID) then [] else [p]
  {
    if parts == [] {
      assert parts + [p] == [p];
    } else {
      assert (parts + [p])[1..] == parts[1..] + [p];
      CleanAppend(parts[1..], p);
    }
  }

  /** Joining undoes splitting, and splitting undoes joining. */
  lemma {:induction false} JoinSplit(s: string)
    ensures Join(Split(s), ",") == s
  {
    if s != [] {
      JoinSplit(s[1..]);
      var rest := Split(s[1..]);
      if s[0] == ',' {
        assert ([""] + rest)[1..] == rest;
      } else {
        assert ([[s[0]] + rest[0]] + rest[1..])[1..] == rest[1..];
      }
    }
  }

  lemma {:induction false} SplitPrefix(p: string, rest: string)
    requires ',' !in p
    ensures Split(p + "," + rest) == [p] + Split(rest)
  {
    var s := p + "," + rest;
    if p == [] {
      assert s[1..] == rest;
    } else {
      assert s[1..] == p[1..] + "," + rest;
      SplitPrefix(p[1..], rest);
      assert Split(s[1..])[0] == p[1..] && Split(s[1..])[1..] == Split(rest);
      assert [p[0]] + p[1..] == p;
    }
  }

  lemma {:induction false} SplitWhole(p: string)
    requires ',' !in p
    ensures Split(p) == [p]
  {
    if p != [] {
      SplitWhole(p[1..]);
      assert [p[0]] + p[1..] == p;
    }
  }

  lemma {:induction false} SplitJoin(parts: seq<string>)
    requires parts != [] && forall p :: p in parts ==> ',' !in p
    ensures Split(Join(parts, ",")) == parts
  {
    assert parts[0] in parts;
    if |parts| == 1 {
      SplitWhole(parts[0]);
    } else {
      assert forall p :: p in parts[1..] ==> p in parts;
      SplitJoin(parts[1..]);
      SplitPrefix(parts[0], Join(parts[1..], ","));
    }
  }

  /** A word without a comma cannot straddle one. */
  lemma {:induction false} NoStraddling(p: string, rest: string, word: string)
    requires word != [] && ',' !in word
    ensures Contains(p + "," + rest, word) <==> Contains(p, word) || Contains(rest, word)
  {
    var s := p + "," + rest;
    assert forall i :: 0 <= i < |word| ==> word[i] in word;
    assert s[|p|] == ',' && s[..|p|] == p;
    assert word <= s <==> word <= p by {
      if |word| <= |p| { assert s[..|word|] == p[..|word|]; }
    }
    if p == [] {
      assert s[1..] == rest;
    } else {
      assert s[1..] == p[1..] + "," + rest;
      NoStraddling(p[1..], rest, word);
    }
  }

  lemma {:induction false} ContainsJoin(parts: seq<string>, word: string)
    requires word != [] && ',' !in word
    ensures Contains(Join(parts, ","), word) <==> exists p :: p in parts && Contains(p, word)
  {
    if |parts| == 1 {
      assert parts[0] in parts;
    } else if parts != [] {
      ContainsJoin(parts[1..], word);
      NoStraddling(parts[0], Join(parts[1..], ","), word);
      assert parts == [parts[0]] + parts[1..];
    }
  }

  lemma {:induction false} CleanAll(parts: seq<string>)
    requires forall p :: p in parts ==> !Contains(p, REQUEST_ID)
    ensures Clean(parts) == parts
  {
    if parts != [] {
      assert parts[0] in parts && forall p :: p in parts[1..] ==> p in parts;
      CleanAll(parts[1..]);
    }
  }

  /** The cleaned message never contains the word; a message without it is left
      alone; so cleaning twice is cleaning once.  What remains is exactly the
      comma-separated parts without the word, in order. */
  lemma CleanMessage(message: string)
    ensures !Contains(WithoutRequestID(message), REQUEST_ID)
    ensures WithoutRequestID(message) == message <==> !Contains(message, REQUEST_ID)
    ensures WithoutRequestID(WithoutRequestID(message)) == WithoutRequestID(message)
    ensures Clean(Split(message)) != [] ==> Split(WithoutRequestID(message)) == Clean(Split(message))
  {
    CleanTwice(message);
    var once := WithoutRequestID(message);
    CleanTwice(once);
    if Clean(Split(message)) != [] { SplitJoin(Clean(Split(message))); }
  }

  lemma CleanTwice(message: string)
    ensures !Contains(WithoutRequestID(message), REQUEST_ID)
    ensures !Contains(message, REQUEST_ID) ==> WithoutRequestID(message) == message
  {
    var parts := Split(message);
    JoinSplit(message);
    assert ',' !in REQUEST_ID;
    ContainsJoin(Clean(parts), REQUEST_ID);
    ContainsJoin(parts, REQUEST_ID);
    if !Contains(message, REQUEST_ID) { CleanAll(parts); }
  }
}

module HealthReconcile {
  import opened Wrappers
  import opened RequestIds

  datatype Health = Healthy | Unhealthy | UnknownHealth

  /** The Ready condition of a ProviderConfig, without its time. */
  datatype HealthCondition = Success | Fail(message: string) | Disabled | Other

  /** MapConditionToHealthStatus compares with a failure without a message. */
  function MapCondition(c: HealthCondition): Health {
    if c == Success then Healthy
    else if c == Fail("") then Unhealthy
    else UnknownHealth
  }

  /** One health check: the condition and health it leaves, and whether it sets
      off unpausing.  A failed check makes the backend Unhealthy only when nothing
      of its message is left once request ids are removed; otherwise its health
      becomes unknown. */
  method Check(before: HealthCondition, disableHealthCheck: bool, checkErr: Option<string>)
    returns (after: HealthCondition, health: Health, unpause: bool)
    ensures unpause <==> !disableHealthCheck && checkErr.None? && before != Success
    ensures health == Healthy <==> !disableHealthCheck && checkErr.None?
    ensures health == Unhealthy <==> !disableHealthCheck && checkErr.Some? && WithoutRequestID(checkErr.value) == ""
    ensures after.Fail? ==> !Contains(after.message, REQUEST_ID)
    ensures after == if disableHealthCheck then Disabled
                     else if checkErr.Some? then Fail(WithoutRequestID(checkErr.value)) else Success
    ensures disableHealthCheck ==> health == UnknownHealth
  {
    if disableHealthCheck {
      return Disabled, UnknownHealth, false;
    }
    after := Fail("");
    if checkErr.Some? {
      var message := ErrNoRequestID(checkErr.value);
      CleanMessage(checkErr.value);
      after := Fail(message);
    } else {
      after := Success;
    }
    health := MapCondition(after);
    unpause := after == Success && before != after;
  }
}
