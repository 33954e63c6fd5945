// updateOnAllBackends (internal/controller/bucket/update.go): one goroutine per
// backend brings the bucket there up to date and records conditions in the
// shared table.  A run is any interleaving of their table writes.

module FanOut {
  import opened Wrappers
  import opened Api
  import opened BackendTable
  import opened Sets
  import B = SharedTable

  /** One goroutine per name with the writes it will make, in order, and the
      error it will return.  Without a client no goroutine is spawned and the
      main goroutine makes the one write itself. */
  datatype Input = Input(names: seq<string>, spawned: seq<bool>, scripts: seq<seq<Write>>, errs: seq<Option<Error>>) {
    predicate Valid() {
      && |spawned| == |scripts| == |errs| == |names|
      && forall i :: 0 <= i < |names| && !spawned[i] ==> |scripts[i]| == 1
    }
  }

  datatype Thread = NotStarted | Running(written: nat) | Returned

  datatype State = State(table: Backends, next: nat, threads: seq<Thread>, firstErr: Option<Error>)

  datatype Event = Start | WriteNext(i: nat) | Return(i: nat)

  function Init(c: Input): State
    requires c.Valid()
  {
    State(map[], 0, seq(|c.names|, _ => NotStarted), None)
  }

  predicate Enabled(c: Input, s: State, e: Event)
    requires c.Valid() && |s.threads| == |c.names|
  {
    match e
    case Start => s.next < |c.names|
    case WriteNext(i) => i < |c.names| && s.threads[i].Running? && s.threads[i].written < |c.scripts[i]|
    case Return(i) => i < |c.names| && s.threads[i].Running? && s.threads[i].written == |c.scripts[i]|
  }

  function Step(c: Input, s: State, e: Event): State
    requires c.Valid() && |s.threads| == |c.names| && Enabled(c, s, e)
  {
    match e
    case Start =>
      // Without a client the main goroutine records that itself and goes on.
      var i := s.next;
      if !c.spawned[i]
      then s.(next := i + 1, threads := s.threads[i := Returned], table := Apply(s.table, c.names[i], c.scripts[i][0]))
      else s.(next := i + 1, threads := s.threads[i := Running(0)])
    case WriteNext(i) =>
      s.(table := Apply(s.table, c.names[i], c.scripts[i][s.threads[i].written]),
         threads := s.threads[i := Running(s.threads[i].written + 1)])
    case Return(i) =>
      // errgroup keeps the first error.
      s.(threads := s.threads[i := Returned], firstErr := if s.firstErr.None? then c.errs[i] else s.firstErr)
  }

  function Run(c: Input, run: seq<Event>): (r: Option<State>)
    requires c.Valid()
    ensures r.Some? ==> |r.value.threads| == |c.names|
  {
    if run == [] then Some(Init(c))
    else
      var before := Run(c, run[..|run| - 1]);
      var last := run[|run| - 1];
      if before.Some? && Enabled(c, before.value, last) then Some(Step(c, before.value, last)) else None
  }

  /** g.Wait() has returned. */
  predicate Done(c: Input, s: State) {
    s.next == |c.names| && forall i :: 0 <= i < |s.threads| ==> s.threads[i].Returned?
  }

  /** The writes goroutine `i` has made so far. */
  function Written(c: Input, s: State, i: nat): seq<Write>
    requires c.Valid() && |s.threads| == |c.names| && i < |c.names|
  {
    match s.threads[i]
    case NotStarted => []
    case Running(k) => if k <= |c.scripts[i]| then c.scripts[i][..k] else []
    case Returned => c.scripts[i]
  }

  /** Goroutines are started in order and stay within their scripts. */
  predicate Orderly(c: Input, s: State)
    requires c.Valid()
  {
    && |s.threads| == |c.names| && s.next <= |c.names|
    && (forall i :: 0 <= i < |c.names| ==> (s.threads[i].NotStarted? <==> i >= s.next))
    && (forall i :: 0 <= i < |c.names| && s.threads[i].Running? ==>
          c.spawned[i] && s.threads[i].written <= |c.scripts[i]|)
  }

  /** With distinct names each entry holds what its own goroutine has written. */
  ghost predicate EntriesOk(c: Input, s: State)
    requires c.Valid() && |s.threads| == |c.names|
  {
    && (forall i :: 0 <= i < |c.names| ==> Entry(s.table, c.names[i]) == Replay(None, Written(c, s, i)))
    && s.table.Keys <= Elements(c.names)
  }

  ghost predicate Inv(c: Input, s: State)
    requires c.Valid()
  {
    Orderly(c, s) && EntriesOk(c, s)
  }

  lemma StepOrderly(c: Input, s: State, e: Event)
    requires c.Valid() && Orderly(c, s) && Enabled(c, s, e)
    ensures Orderly(c, Step(c, s, e))
  {
  }

  /** One goroutine's step: its entry follows its script, the others stay. */
  lemma WriteKeepsEntries(c: Input, s: State, t: State, i: nat, w: Write)
    requires c.Valid() && NoDuplicates(c.names) && |s.threads| == |t.threads| == |c.names| && i < |c.names|
    requires EntriesOk(c, s) && t.table == Apply(s.table, c.names[i], w)
    requires Written(c, t, i) == Written(c, s, i) + [w]
    requires forall j :: 0 <= j < |c.names| && j != i ==> t.threads[j] == s.threads[j]
    ensures EntriesOk(c, t)
  {
    assert c.names[i] in Elements(c.names);
    ReplayAppend(None, Written(c, s, i), w);
    forall j | 0 <= j < |c.names| ensures Entry(t.table, c.names[j]) == Replay(None, Written(c, t, j)) {
      ApplyEntry(s.table, c.names[i], w, c.names[j]);
      if j != i { assert c.names[j] != c.names[i]; }
    }
  }

  lemma SilentKeepsEntries(c: Input, s: State, t: State, i: nat)
    requires c.Valid() && |s.threads| == |t.threads| == |c.names| && i < |c.names|
    requires EntriesOk(c, s) && t.table == s.table && Written(c, t, i) == Written(c, s, i)
    requires forall j :: 0 <= j < |c.names| && j != i ==> t.threads[j] == s.threads[j]
    ensures EntriesOk(c, t)
  {
    forall j | 0 <= j < |c.names| ensures Entry(t.table, c.names[j]) == Replay(None, Written(c, t, j)) {
      assert Written(c, t, j) == Written(c, s, j);
    }
  }

  lemma StepEntries(c: Input, s: State, e: Event)
    requires c.Valid() && NoDuplicates(c.names) && Inv(c, s) && Enabled(c, s, e)
    ensures EntriesOk(c, Step(c, s, e))
  {
    var t := Step(c, s, e);
    match e
    case Start =>
      var i := s.next;
      if c.spawned[i] {
        SilentKeepsEntries(c, s, t, i);
      } else {
        var w := c.scripts[i][0];
        assert [] + [w] == [w] == c.scripts[i];
        WriteKeepsEntries(c, s, t, i, w);
      }
    case WriteNext(i) =>
      var k := s.threads[i].written;
      assert c.scripts[i][..k + 1] == c.scripts[i][..k] + [c.scripts[i][k]];
      WriteKeepsEntries(c, s, t, i, c.scripts[i][k]);
    case Return(i) =>
      assert c.scripts[i][..|c.scripts[i]|] == c.scripts[i];
      SilentKeepsEntries(c, s, t, i);
  }

  lemma {:induction false} ReachableInv(c: Input, run: seq<Event>, s: State)
    requires c.Valid() && NoDuplicates(c.names) && Run(c, run) == Some(s)
    ensures Inv(c, s)
  {
    if run != [] {
      var p := Run(c, run[..|run| - 1]).value;
      ReachableInv(c, run[..|run| - 1], p);
      StepOrderly(c, p, run[|run| - 1]);
      StepEntries(c, p, run[|run| - 1]);
    }
  }

  // --- every interleaving ends like the sequential one ---------------------------------

  /** The table after running the first `n` backends one after another. */
  function Sequential(c: Input, n: nat): Backends
    requires c.Valid() && n <= |c.names|
  {
    if n == 0 then map[] else ApplyAll(Sequential(c, n - 1), c.names[n - 1], c.scripts[n - 1])
  }

  lemma {:induction false} SequentialEntry(c: Input, n: nat, i: nat)
    requires c.Valid() && NoDuplicates(c.names) && n <= |c.names| && i < |c.names|
    ensures Entry(Sequential(c, n), c.names[i]) == if i < n then Replay(None, c.scripts[i]) else None
  {
    if n > 0 {
      SequentialEntry(c, n - 1, i);
      ApplyAllEntry(Sequential(c, n - 1), c.names[n - 1], c.scripts[n - 1], c.names[i]);
    }
  }

  lemma {:induction false} SequentialUnlisted(c: Input, n: nat, name: string)
    requires c.Valid() && n <= |c.names| && name !in c.names
    ensures Entry(Sequential(c, n), name) == None
  {
    if n > 0 {
      SequentialUnlisted(c, n - 1, name);
      ApplyAllEntry(Sequential(c, n - 1), c.names[n - 1], c.scripts[n - 1], name);
    }
  }

  lemma SameTable(a: Backends, b: Backends)
    requires forall n :: Entry(a, n) == Entry(b, n)
    ensures a == b
  {
    forall n ensures n in a <==> n in b { assert Entry(a, n) == Entry(b, n); }
    forall n | n in a ensures a[n] == b[n] { assert Entry(a, n) == Entry(b, n); }
  }

  /** For distinct backend names every schedule leaves the table that running
      the backends one after another leaves. */
  lemma EndsLikeSequential(c: Input, run: seq<Event>, s: State)
    requires c.Valid() && NoDuplicates(c.names) && Run(c, run) == Some(s) && Done(c, s)
    ensures s.table == Sequential(c, |c.names|)
  {
    ReachableInv(c, run, s);
    forall n ensures Entry(s.table, n) == Entry(Sequential(c, |c.names|), n) {
      if i :| 0 <= i < |c.names| && c.names[i] == n {
        SequentialEntry(c, |c.names|, i);
        assert Written(c, s, i) == c.scripts[i];
      } else {
        SequentialUnlisted(c, |c.names|, n);
        assert n !in Elements(c.names);
      }
    }
    SameTable(s.table, Sequential(c, |c.names|));
  }

  /** The error kept so far is that of a goroutine that has returned, and there
      is none only if none of those failed. */
  ghost predicate ErrorOk(c: Input, s: State)
    requires c.Valid() && |s.threads| == |c.names|
  {
    && (s.firstErr.Some? ==>
         exists i :: 0 <= i < |c.names| && c.spawned[i] && s.threads[i].Returned? && c.errs[i] == s.firstErr)
    && (s.firstErr.None? ==>
         forall i :: 0 <= i < |c.names| && c.spawned[i] && s.threads[i].Returned? ==> c.errs[i].None?)
  }

  lemma StepError(c: Input, s: State, e: Event)
    requires c.Valid() && Orderly(c, s) && ErrorOk(c, s) && Enabled(c, s, e)
    ensures ErrorOk(c, Step(c, s, e))
  {
    var t := Step(c, s, e);
    if s.firstErr.Some? {
      var i :| 0 <= i < |c.names| && c.spawned[i] && s.threads[i].Returned? && c.errs[i] == s.firstErr;
      assert t.threads[i].Returned? && c.errs[i] == t.firstErr;
    } else if e.Return? {
      assert c.spawned[e.i] && t.threads[e.i].Returned?;
    }
  }

  lemma {:induction false} ReachableError(c: Input, run: seq<Event>, s: State)
    requires c.Valid() && Run(c, run) == Some(s)
    ensures Orderly(c, s) && ErrorOk(c, s)
  {
    if run != [] {
      var p := Run(c, run[..|run| - 1]).value;
      ReachableError(c, run[..|run| - 1], p);
      StepOrderly(c, p, run[|run| - 1]);
      StepError(c, p, run[|run| - 1]);
    }
  }

  /** The group's error is nil exactly when every goroutine returned nil, and
      otherwise is one of theirs; with duplicated names too. */
  lemma GroupError(c: Input, run: seq<Event>, s: State)
    requires c.Valid() && Run(c, run) == Some(s) && Done(c, s)
    ensures s.firstErr.None? <==> forall i :: 0 <= i < |c.names| && c.spawned[i] ==> c.errs[i].None?
    ensures s.firstErr.Some? ==> exists i :: 0 <= i < |c.names| && c.spawned[i] && c.errs[i] == s.firstErr
  {
    ReachableError(c, run, s);
  }

  // --- scheduling -------------------------------------------------------------------

  function ThreadRank(c: Input, i: nat, t: Thread): int
    requires c.Valid() && i < |c.names|
  {
    match t
    case NotStarted => |c.scripts[i]| + 2
    case Running(k) => |c.scripts[i]| - k + 1
    case Returned => 0
  }

  /** The steps the first `n` goroutines have left. */
  function Rank(c: Input, threads: seq<Thread>, n: nat): int
    requires c.Valid() && |threads| == |c.names| && n <= |c.names|
  {
    if n == 0 then 0 else Rank(c, threads, n - 1) + ThreadRank(c, n - 1, threads[n - 1])
  }

  lemma {:induction false} RankFalls(c: Input, threads: seq<Thread>, n: nat, i: nat, t: Thread)
    requires c.Valid() && |threads| == |c.names| && n <= |c.names| && i < |c.names|
    ensures Rank(c, threads[i := t], n) ==
            Rank(c, threads, n) + if i < n then ThreadRank(c, i, t) - ThreadRank(c, i, threads[i]) else 0
  {
    if n > 0 { RankFalls(c, threads, n - 1, i, t); }
  }

  lemma {:induction false} RankNonNegative(c: Input, threads: seq<Thread>, n: nat)
    requires c.Valid() && |threads| == |c.names| && n <= |c.names|
    requires forall i :: 0 <= i < |c.names| && threads[i].Running? ==> threads[i].written <= |c.scripts[i]|
    ensures Rank(c, threads, n) >= 0
  {
    if n > 0 { RankNonNegative(c, threads, n - 1); }
  }

  /** Any event that can happen now. */
  method Schedule(c: Input, s: State) returns (e: Event)
    requires c.Valid() && Orderly(c, s) && !Done(c, s)
    ensures Enabled(c, s, e)
  {
    var main: bool := *;
    if s.next < |c.names| && (main || forall i :: 0 <= i < s.next ==> s.threads[i].Returned?) {
      return Start;
    }
    var i: nat :| i < |s.threads| && s.threads[i].Running?;
    e := if s.threads[i].written < |c.scripts[i]| then WriteNext(i) else Return(i);
  }

  lemma StepRank(c: Input, s: State, e: Event)
    requires c.Valid() && Orderly(c, s) && Enabled(c, s, e)
    ensures 0 <= Rank(c, Step(c, s, e).threads, |c.names|) < Rank(c, s.threads, |c.names|)
  {
    var i := if e.Start? then s.next else e.i;
    var t := Step(c, s, e);
    RankFalls(c, s.threads, |c.names|, i, t.threads[i]);
    StepOrderly(c, s, e);
    RankNonNegative(c, t.threads, |c.names|);
  }

  /** The fan-out under an arbitrary scheduler: it ends, and what it leaves in
      the table and returns is the end of some run. */
  method RunAll(c: Input, bb: B.BucketBackends, name: string) returns (firstErr: Option<Error>, ghost run: seq<Event>)
    requires c.Valid() && bb.Of(name) == map[]
    modifies bb
    ensures Run(c, run).Some? && Done(c, Run(c, run).value)
    ensures bb.Of(name) == Run(c, run).value.table && firstErr == Run(c, run).value.firstErr
    ensures forall b :: b != name ==> bb.Of(b) == old(bb.Of(b))
  {
    var s := Init(c);
    run := [];
    while !Done(c, s)
      invariant Orderly(c, s) && Run(c, run) == Some(s) && bb.Of(name) == s.table
      invariant forall b :: b != name ==> bb.Of(b) == old(bb.Of(b))
      decreases Rank(c, s.threads, |c.names|)
    {
      var e := Schedule(c, s);
      StepOrderly(c, s, e);
      StepRank(c, s, e);
      match e {
        case Start => if !c.spawned[s.next] { Write(bb, name, c.names[s.next], c.scripts[s.next][0]); }
        case WriteNext(i) => Write(bb, name, c.names[i], c.scripts[i][s.threads[i].written]);
        case Return(_) =>
      }
      assert (run + [e])[..|run|] == run;
      run := run + [e];
      s := Step(c, s, e);
    }
    firstErr := s.firstErr;
  }

  method Write(bb: B.BucketBackends, name: string, backendName: string, w: Write)
    modifies bb
    ensures bb.Of(name) == Apply(old(bb.Of(name)), backendName, w)
    ensures forall b :: b != name ==> bb.Of(b) == old(bb.Of(b))
  {
    if w.DeleteBackend? {
      bb.RemoveBackend(name, backendName);
    } else {
      bb.Change(name, backendName, w);
    }
  }
}

module UpdateProtocol {
  import opened Wrappers
  import opened Api
  import opened BackendTable
  import opened SubResources
  import opened Sets
  import opened BucketStatus
  import opened Pausing
  import B = SharedTable
  import F = FanOut

  /** What the outside answers the goroutine of one backend. */
  datatype Reply = Reply(
    clientErr: Option<Error>,
    exists_: Result<bool, Error>,
    createErr: Option<Error>,
    config: Config,               // what the backend holds, or makes of its creation
    handlers: Replies,
    unhealthyAtEnd: bool)
  {
    predicate Missing() { exists_ == Ok(false) }

    /** What the bucket holds when the clients run.  A bucket just recreated has
        no rules and no policy, and unless it was created with object lock it
        was never versioned and has no lock configuration. */
    function Held(spec: Spec): Config {
      if !Missing() then config
      else if spec.LockEnabled() then config.(rules := [], policy := "")
      else config.(rules := [], policy := "", versioning := UNVERSIONED, objectLock := None)
    }
  }

  datatype Input = Input(names: seq<string>, replies: seq<Reply>, spec: Spec, kinds: seq<Kind>, recreate: bool) {
    predicate Valid() { |replies| == |names| && NoDuplicates(kinds) }
  }

  const MARKED_UNHEALTHY := "Backend is marked Unhealthy"

  /** The table writes of updateOnBackend, in order, and the error it returns. */
  function Script(spec: Spec, kinds: seq<Kind>, recreate: bool, r: Reply): (seq<Write>, Option<Error>) {
    if r.exists_.Err? then ([SetBucket(UNAVAILABLE.WithMessage(r.exists_.error))], Some(r.exists_.error))
    else if !r.exists_.value && !recreate then ([DeleteBackend], None)
    // A failed recreation records no condition at all.
    else if !r.exists_.value && r.createErr.Some? then ([], r.createErr)
    else
      var o := DoUpdate(kinds, spec, r.Held(spec), r.handlers);
      if o.err.Some? then (o.writes + [SetBucket(UNAVAILABLE.WithMessage(o.err.value))], o.err)
      else if r.unhealthyAtEnd then (o.writes + [SetBucket(UNAVAILABLE.WithMessage(MARKED_UNHEALTHY))], None)
      else (o.writes + [SetBucket(AVAILABLE)], None)
  }

  /** The goroutine: the bucket was found or recreated, every enabled Handle
      returned nil and the backend was not unhealthy at the end. */
  predicate Succeeded(c: Input, r: Reply) {
    && r.clientErr.None?
    && r.exists_.Ok? && (r.exists_.value || (c.recreate && r.createErr.None?))
    && DoUpdate(c.kinds, c.spec, r.Held(c.spec), r.handlers).err.None?
    && !r.unhealthyAtEnd
  }

  /** The fan-out with every goroutine's writes and error worked out. */
  function Plan(c: Input): (f: F.Input)
    requires c.Valid()
    ensures f.Valid() && f.names == c.names
  {
    F.Input(c.names,
      seq(|c.names|, i requires 0 <= i < |c.names| => c.replies[i].clientErr.None?),
      seq(|c.names|, i requires 0 <= i < |c.names| => ScriptOf(c, i)),
      seq(|c.names|, i requires 0 <= i < |c.names| => Script(c.spec, c.kinds, c.recreate, c.replies[i]).1))
  }

  function ScriptOf(c: Input, i: nat): seq<Write>
    requires c.Valid() && i < |c.names|
  {
    if c.replies[i].clientErr.Some? then [SetBucket(UNAVAILABLE.WithMessage(c.replies[i].clientErr.value))]
    else Script(c.spec, c.kinds, c.recreate, c.replies[i]).0
  }

  // --- what Available means, in every state ---------------------------------------------

  predicate GoodInfo(info: BackendInfo) {
    && (info.lifecycle.None? || info.lifecycle == Some(AVAILABLE))
    && (info.versioning.None? || info.versioning == Some(AVAILABLE))
    && (info.objectLock.None? || info.objectLock == Some(AVAILABLE))
  }

  lemma {:induction false} ReplaySubresources(entry: Option<BackendInfo>, ws: seq<Write>)
    requires forall w :: w in ws ==> !w.SetBucket? && !w.DeleteBackend?
    requires entry.Some? ==> entry.value.bucket == EMPTY_INFO.bucket
    ensures Replay(entry, ws).Some? ==> Replay(entry, ws).value.bucket == EMPTY_INFO.bucket
    ensures (entry.Some? ==> GoodInfo(entry.value)) && (forall w :: w in ws ==> GoodWrite(w)) ==>
              (Replay(entry, ws).Some? ==> GoodInfo(Replay(entry, ws).value))
    decreases ws
  {
    if ws != [] {
      assert ws[0] in ws && forall w :: w in ws[1..] ==> w in ws;
      ReplaySubresources(ReplayOne(entry, ws[0]), ws[1..]);
    }
  }

  /** A goroutine's entry says Available only at the very end of a successful
      update, and then no sub-resource condition says anything worse. */
  lemma AvailableEntry(c: Input, i: nat, k: nat)
    requires c.Valid() && i < |c.names| && k <= |ScriptOf(c, i)|
    ensures var e := Replay(None, ScriptOf(c, i)[..k]);
            e.Some? && e.value.bucket == AVAILABLE ==>
              k == |ScriptOf(c, i)| && Succeeded(c, c.replies[i]) && GoodInfo(e.value)
  {
    var r := c.replies[i];
    var script := ScriptOf(c, i);
    var o := DoUpdate(c.kinds, c.spec, r.Held(c.spec), r.handlers);
    PassWrites(c.kinds, c.spec, r.Held(c.spec), r.handlers);
    if r.clientErr.None? && r.exists_.Ok? && (r.exists_.value || (c.recreate && r.createErr.None?)) {
      var last := script[|script| - 1];
      assert script == o.writes + [last];
      if k < |script| {
        assert script[..k] == o.writes[..k];
        ReplaySubresources(None, o.writes[..k]);
      } else {
        assert script[..k] == script;
        ReplayAppend(None, o.writes, last);
        ReplaySubresources(None, o.writes);
      }
    } else {
      ShortScript(script[..k]);
    }
  }

  lemma ShortScript(ws: seq<Write>)
    requires |ws| <= 1 && forall w :: w in ws ==> w.DeleteBackend? || (w.SetBucket? && w.c != AVAILABLE)
    ensures Replay(None, ws).Some? ==> Replay(None, ws).value.bucket != AVAILABLE
  {
    if ws != [] { assert ws[0] in ws && ws[1..] == []; }
  }

  /** In every intermediate state a backend recorded as Available has been
      updated successfully and has no sub-resource condition but Available. */
  lemma AvailableAlwaysGood(c: Input, run: seq<F.Event>, s: F.State, name: string)
    requires c.Valid() && NoDuplicates(c.names) && F.Run(Plan(c), run) == Some(s)
    requires name in s.table && s.table[name].bucket == AVAILABLE
    ensures GoodInfo(s.table[name])
    ensures exists i: nat :: i < |c.names| && c.names[i] == name && Succeeded(c, c.replies[i])
  {
    F.ReachableInv(Plan(c), run, s);
    assert name in Elements(c.names);
    var i: nat :| i < |c.names| && c.names[i] == name;
    assert Entry(s.table, name) == Replay(None, F.Written(Plan(c), s, i));
    var k := |F.Written(Plan(c), s, i)|;
    assert F.Written(Plan(c), s, i) == ScriptOf(c, i)[..k];
    AvailableEntry(c, i, k);
  }

  // --- which backends are recorded at all ---------------------------------------------------

  /** The goroutine ended by recording the bucket's condition. */
  predicate Records(c: Input, r: Reply) {
    r.clientErr.Some? || r.exists_.Err? || r.exists_.value || (c.recreate && r.createErr.None?)
  }

  /** After a finished run each entry is what its own script makes of it. */
  lemma EndEntry(c: Input, run: seq<F.Event>, s: F.State, i: nat)
    requires c.Valid() && NoDuplicates(c.names) && F.Run(Plan(c), run) == Some(s) && F.Done(Plan(c), s)
    requires i < |c.names|
    ensures Entry(s.table, c.names[i]) == Replay(None, ScriptOf(c, i))
  {
    F.ReachableInv(Plan(c), run, s);
    assert F.Written(Plan(c), s, i) == ScriptOf(c, i);
  }

  lemma ScriptRecords(c: Input, i: nat)
    requires c.Valid() && i < |c.names|
    ensures Replay(None, ScriptOf(c, i)).Some? <==> Records(c, c.replies[i])
  {
    var r := c.replies[i];
    var script := ScriptOf(c, i);
    if script != [] {
      var last := script[|script| - 1];
      assert script == script[..|script| - 1] + [last];
      ReplayAppend(None, script[..|script| - 1], last);
    }
  }

  /** After a finished run a backend has an entry exactly when its client could
      not be had, its bucket's existence could not be told, or the bucket was
      there or was recreated: a failed recreation, like a missing bucket that is
      not to be recreated, leaves no entry. */
  lemma RecordedExactly(c: Input, run: seq<F.Event>, s: F.State, i: nat)
    requires c.Valid() && NoDuplicates(c.names) && F.Run(Plan(c), run) == Some(s) && F.Done(Plan(c), s)
    requires i < |c.names|
    ensures c.names[i] in s.table <==> Records(c, c.replies[i])
  {
    EndEntry(c, run, s, i);
    ScriptRecords(c, i);
  }

  /** So a recreation that failed makes the update fail, and yet the status says
      nothing of that backend. */
  lemma FailedRecreationUnrecorded(c: Input, run: seq<F.Event>, s: F.State, i: nat, before: Status, status: Status,
                                   minReplicas: nat)
    requires c.Valid() && NoDuplicates(c.names) && F.Run(Plan(c), run) == Some(s) && F.Done(Plan(c), s)
    requires IsStatusAfter(before, status, s.table, c.names, minReplicas)
    requires i < |c.names| && c.replies[i].clientErr.None?
    ensures c.names[i] !in status.backends && ScriptError(c, c.replies[i]).Some? <==>
            c.replies[i].exists_ == Ok(false) && c.recreate && c.replies[i].createErr.Some?
    ensures ScriptError(c, c.replies[i]).Some? ==> s.firstErr.Some?
  {
    RecordedExactly(c, run, s, i);
    StatusBackends(before, status, s.table, c.names, minReplicas);
    assert c.names[i] in c.names;
    F.GroupError(Plan(c), run, s);
    assert Plan(c).spawned[i] && Plan(c).errs[i] == ScriptError(c, c.replies[i]);
  }

  function ScriptError(c: Input, r: Reply): Option<Error>
    requires c.Valid()
  {
    Script(c.spec, c.kinds, c.recreate, r).1
  }

  // --- when an update fails, and with which error -----------------------------------------

  /** The bucket is there when the clients are to run. */
  predicate BucketThere(c: Input, r: Reply) {
    r.exists_ == Ok(true) || (r.Missing() && c.recreate && r.createErr.None?)
  }

  predicate RecreationFails(c: Input, r: Reply) { r.Missing() && c.recreate && r.createErr.Some? }

  predicate SomeClientFails(c: Input, r: Reply) {
    exists k :: k in c.kinds && CallsFail(k, c.spec, r.Held(c.spec), r.handlers.To(k))
  }

  /** One of the calls made for this backend failed. */
  predicate Fails(c: Input, r: Reply) {
    r.exists_.Err? || RecreationFails(c, r) || (BucketThere(c, r) && SomeClientFails(c, r))
  }

  /** The goroutine fails exactly if HeadBucket did, or the recreation was tried
      and did, or the bucket is there and a call of some enabled client did; and
      it returns that very error, of several clients the first one's. */
  lemma GoroutineErrorExactly(c: Input, r: Reply)
    requires c.Valid()
    ensures ScriptError(c, r).Some? <==> Fails(c, r)
    ensures r.exists_.Err? ==> ScriptError(c, r) == Some(r.exists_.error)
    ensures RecreationFails(c, r) ==> ScriptError(c, r) == r.createErr
    ensures BucketThere(c, r) && SomeClientFails(c, r) ==>
              var n := FirstFailure(c.kinds, c.spec, r.Held(c.spec), r.handlers);
              && n < |c.kinds|
              && var k := c.kinds[n];
              ScriptError(c, r) ==
              Some(Wrap(Handle(k, c.spec, r.Held(c.spec), r.handlers.To(k)).err.value, ERR_HANDLE_SUBRESOURCE))
  {
    PassErrorExactly(c.kinds, c.spec, r.Held(c.spec), r.handlers);
    ClientsFailExactly(c, r);
  }

  /** Something failed on the i-th backend, which had a client. */
  predicate FailsOn(c: Input, i: nat)
    requires c.Valid() && i < |c.names|
  {
    c.replies[i].clientErr.None? && Fails(c, c.replies[i])
  }

  predicate FailsWith(c: Input, i: int, err: Option<Error>)
    requires c.Valid()
  {
    0 <= i < |c.names| && FailsOn(c, i) && ScriptError(c, c.replies[i]) == err
  }

  /** So the whole update is error-free exactly if nothing failed on any backend
      with a client, and otherwise returns the error of such a backend. */
  lemma UpdateErrorExactly(c: Input, run: seq<F.Event>, s: F.State)
    requires c.Valid() && F.Run(Plan(c), run) == Some(s) && F.Done(Plan(c), s)
    ensures s.firstErr.None? <==> forall i :: 0 <= i < |c.names| ==> !FailsOn(c, i)
    ensures s.firstErr.Some? ==> exists i :: FailsWith(c, i, s.firstErr)
  {
    F.GroupError(Plan(c), run, s);
    forall i | 0 <= i < |c.names|
      ensures Plan(c).errs[i] == ScriptError(c, c.replies[i])
      ensures ScriptError(c, c.replies[i]).Some? <==> Fails(c, c.replies[i])
    {
      GoroutineErrorExactly(c, c.replies[i]);
    }
    if s.firstErr.Some? {
      var i :| 0 <= i < |c.names| && Plan(c).spawned[i] && Plan(c).errs[i] == s.firstErr;
      assert FailsWith(c, i, s.firstErr);
    }
  }

  /** The condition the clients leave for a part, if the bucket was there for them. */
  function LeftOnPart(c: Input, r: Reply, k: Kind): Option<Condition> {
    if r.clientErr.None? && BucketThere(c, r) && k in c.kinds
    then LeftByPass(k, c.kinds, c.spec, r.Held(c.spec), r.handlers) else None
  }

  lemma PartsExactly(c: Input, i: nat)
    requires c.Valid() && i < |c.names| && Records(c, c.replies[i])
    ensures var e := Replay(None, ScriptOf(c, i));
            e.Some? ==> forall k :: FieldOf(e.value, k) == LeftOnPart(c, c.replies[i], k)
  {
    var r, script := c.replies[i], ScriptOf(c, i);
    var last := script[|script| - 1];
    if r.clientErr.None? && BucketThere(c, r) {
      var o := DoUpdate(c.kinds, c.spec, r.Held(c.spec), r.handlers);
      PassLeaves(c.kinds, c.spec, r.Held(c.spec), r.handlers, None);
      assert script == o.writes + [last];
      ReplayAppend(None, o.writes, last);
      forall k ensures FieldOf(ReplayOne(Replay(None, o.writes), last).value, k) ==
                       FieldOf(InfoIn(Replay(None, o.writes)), k) {}
    } else {
      assert script == [last] && script[1..] == [];
    }
  }

  /** The conditions a finished run leaves for a recorded bucket: Unavailable with
      the error that hit it, or because the backend is unhealthy, else Available;
      and for each part what its own client left. */
  lemma ConditionExactly(c: Input, run: seq<F.Event>, s: F.State, i: nat)
    requires c.Valid() && NoDuplicates(c.names) && F.Run(Plan(c), run) == Some(s) && F.Done(Plan(c), s)
    requires i < |c.names| && Records(c, c.replies[i])
    ensures c.names[i] in s.table
    ensures var r, bucket := c.replies[i], s.table[c.names[i]].bucket;
            if r.clientErr.Some? then bucket == UNAVAILABLE.WithMessage(r.clientErr.value)
            else if Fails(c, r) then ScriptError(c, r).Some?
                && bucket == UNAVAILABLE.WithMessage(ScriptError(c, r).value)
            else if r.unhealthyAtEnd then bucket == UNAVAILABLE.WithMessage(MARKED_UNHEALTHY)
            else bucket == AVAILABLE
    ensures forall k :: FieldOf(s.table[c.names[i]], k) == LeftOnPart(c, c.replies[i], k)
  {
    PartsExactly(c, i);

    var r, script := c.replies[i], ScriptOf(c, i);
    EndEntry(c, run, s, i);
    GoroutineErrorExactly(c, r);
    var last := script[|script| - 1];
    assert script == script[..|script| - 1] + [last];
    ReplayAppend(None, script[..|script| - 1], last);
  }

  /** Success is what is left when nothing fails and the backend is not unhealthy. */
  lemma SucceededExactly(c: Input, r: Reply)
    requires c.Valid()
    ensures Succeeded(c, r) <==> r.clientErr.None? && BucketThere(c, r) && !SomeClientFails(c, r) && !r.unhealthyAtEnd
  {
    ClientsFailExactly(c, r);
  }

  lemma ClientsFailExactly(c: Input, r: Reply)
    requires c.Valid()
    ensures DoUpdate(c.kinds, c.spec, r.Held(c.spec), r.handlers).err.Some? <==> SomeClientFails(c, r)
  {
    PassErrorExactly(c.kinds, c.spec, r.Held(c.spec), r.handlers);
    var n := FirstFailure(c.kinds, c.spec, r.Held(c.spec), r.handlers);
    if n < |c.kinds| { assert c.kinds[n] in c.kinds; }
  }

  // --- what a paused bucket can rely on -----------------------------------------------------

  /** The backend's goroutine succeeded, and every enabled sub-resource now has
      its wanted value there. */
  predicate Reconciled(c: Input, r: Reply)
    requires c.Valid()
  {
    Succeeded(c, r) && forall k :: k in c.kinds ==>
      Converged(k, c.spec, r.Held(c.spec), DoUpdate(c.kinds, c.spec, r.Held(c.spec), r.handlers).config)
  }

  lemma AvailableReconciled(c: Input, run: seq<F.Event>, s: F.State, i: nat)
    requires c.Valid() && NoDuplicates(c.names) && F.Run(Plan(c), run) == Some(s) && i < |c.names|
    requires c.names[i] in s.table && s.table[c.names[i]].bucket == AVAILABLE
    ensures Reconciled(c, c.replies[i]) && GoodInfo(s.table[c.names[i]])
  {
    AvailableAlwaysGood(c, run, s, c.names[i]);
    var r := c.replies[i];
    PassConverges(c.kinds, c.spec, r.Held(c.spec), r.handlers);
  }

  /** If the status written from the table of a finished run makes a pause
      required, then in that same run every listed backend had a stored client
      and was reconciled, and the names are distinct and meet the quota.  The
      names need not be assumed distinct, nor any backend online: the Synced
      condition and the count imply it. */
  lemma PauseImpliesReconciled(c: Input, run: seq<F.Event>, s: F.State, before: Status, status: Status, labels: Labels,
                               minReplicas: nat, clients: set<string>, autopauseEnabled: bool)
    requires c.Valid() && F.Run(Plan(c), run) == Some(s) && F.Done(Plan(c), s)
    requires IsStatusAfter(before, status, s.table, c.names, minReplicas)
    requires PauseRequired(c.spec, labels, status, c.names, clients, s.table, autopauseEnabled)
    ensures NoDuplicates(c.names) && |c.names| >= minReplicas
    ensures forall i :: 0 <= i < |c.names| ==> c.names[i] in clients && Reconciled(c, c.replies[i])
    ensures s.firstErr.None?
    ensures forall n :: n in c.names ==> n in status.backends && GoodInfo(status.backends[n])
    ensures ConditionsMatch(c.spec, status.backends, c.names)
  {
    StatusBackends(before, status, s.table, c.names, minReplicas);
    assert forall n :: n in c.names ==> InfoOf(status.backends, n) == InfoOf(s.table, n);
    assert status.GetCondition(Synced) == RECONCILE_SUCCESS;
    assert NoDuplicates(c.names);
    forall i | 0 <= i < |c.names|
      ensures c.names[i] in clients && Reconciled(c, c.replies[i])
      ensures c.names[i] in s.table && GoodInfo(s.table[c.names[i]])
    {
      assert c.names[i] in c.names && B.AvailableOn(s.table, clients, c.names[i]);
      AvailableReconciled(c, run, s, i);
    }
    F.GroupError(Plan(c), run, s);
  }

  // --- exactly when a run leads to a pause --------------------------------------------------

  /** The conditions a successful goroutine leaves. */
  function RecordedFor(c: Input, r: Reply, k: Kind): Option<Condition> {
    if k in c.kinds then Expected(k, c.spec, r.Held(c.spec)) else None
  }

  lemma SuccessEntry(c: Input, i: nat)
    requires c.Valid() && i < |c.names| && Succeeded(c, c.replies[i])
    ensures var e := Replay(None, ScriptOf(c, i));
            && e.Some? && e.value.bucket == AVAILABLE
            && forall k :: FieldOf(e.value, k) == RecordedFor(c, c.replies[i], k)
  {
    var r := c.replies[i];
    var o := DoUpdate(c.kinds, c.spec, r.Held(c.spec), r.handlers);
    PassRecords(c.kinds, c.spec, r.Held(c.spec), r.handlers, None);
    ReplayAppend(None, o.writes, SetBucket(AVAILABLE));
    assert ScriptOf(c, i) == o.writes + [SetBucket(AVAILABLE)];
    forall k ensures FieldOf(Replay(None, ScriptOf(c, i)).value, k) == FieldOf(InfoIn(Replay(None, o.writes)), k) {}
  }

  /** What the backends held lets the recorded conditions fit the spec: wanted
      parts have an enabled client, no backend had rules where an empty list is
      wanted, locking is on where a lock configuration is wanted, and where
      versioning is neither wanted nor implied by a lock, either every backend
      was versioned before or none was. */
  predicate Fits(c: Input)
    requires c.Valid()
  {
    c.names != [] ==> LifecycleFits(c) && VersioningFits(c) && LockFits(c)
  }

  predicate LifecycleFits(c: Input)
    requires c.Valid()
  {
    c.spec.lifecycle.Some? && !c.spec.lifecycleDisabled ==>
      && Lifecycle in c.kinds
      && (c.spec.lifecycle.value == [] ==> forall i :: 0 <= i < |c.names| ==> c.replies[i].Held(c.spec).rules == [])
  }

  predicate VersioningFits(c: Input)
    requires c.Valid()
  {
    && (c.spec.versioning.Some? ==> Versions in c.kinds)
    && (Versions in c.kinds && c.spec.versioning.None? && !c.spec.LockEnabled() ==>
          || (forall i :: 0 <= i < |c.names| ==> c.replies[i].Held(c.spec).versioning == UNVERSIONED)
          || (forall i :: 0 <= i < |c.names| ==> c.replies[i].Held(c.spec).versioning != UNVERSIONED))
  }

  /** The bucket on the backend was versioned at some time. */
  predicate Versioned(c: Input, i: nat)
    requires c.Valid() && i < |c.names|
  {
    c.replies[i].Held(c.spec).versioning != UNVERSIONED
  }

  /** What the run leaves on the backend. */
  function LeftOn(c: Input, i: nat): Config
    requires c.Valid() && i < |c.names|
  {
    var r := c.replies[i];
    var held := r.Held(c.spec);
    if r.clientErr.None? && r.exists_.Ok? && (r.exists_.value || (c.recreate && r.createErr.None?))
    then DoUpdate(c.kinds, c.spec, held, r.handlers).config else held
  }

  /** Run `d` is the next one after `c` for the same CR: each bucket is as `c` left
      it, or has gone missing meanwhile. */
  predicate Follows(c: Input, d: Input)
    requires c.Valid() && d.Valid()
  {
    && d.names == c.names && d.spec == c.spec && d.kinds == c.kinds
    && forall i :: 0 <= i < |c.names| ==> d.replies[i].Missing() || d.replies[i].config == LeftOn(c, i)
  }

  /** Versioning is neither wanted nor implied by a lock. */
  predicate VersioningUnasked(spec: Spec) { spec.versioning.None? && !spec.LockEnabled() }

  /** A bucket stays versioned until it goes missing, and only then. */
  lemma VersionedStays(c: Input, d: Input, i: nat)
    requires c.Valid() && d.Valid() && Follows(c, d) && VersioningUnasked(c.spec) && i < |c.names|
    ensures Versioned(d, i) <==> Versioned(c, i) && !d.replies[i].Missing()
  {
    EverVersionedStays(c.kinds, c.spec, c.replies[i].Held(c.spec), c.replies[i].handlers);
  }

  predicate IsSequence(runs: seq<Input>) {
    && (forall k :: 0 <= k < |runs| ==> runs[k].Valid() && runs[k].names == runs[0].names
                                        && runs[k].spec == runs[0].spec && runs[k].kinds == runs[0].kinds)
    && (forall k :: 0 <= k < |runs| - 1 ==> Follows(runs[k], runs[k + 1]))
  }

  /** The bucket has not gone missing since the first of the runs. */
  predicate Survives(runs: seq<Input>, k: nat, i: nat)
    requires IsSequence(runs) && k < |runs| && i < |runs[0].names|
  {
    forall j :: 0 < j <= k ==> !runs[j].replies[i].Missing()
  }

  lemma {:induction false} VersionedSince(runs: seq<Input>, k: nat, i: nat)
    requires IsSequence(runs) && k < |runs| && VersioningUnasked(runs[0].spec) && i < |runs[0].names|
    ensures Versioned(runs[k], i) <==> Versioned(runs[0], i) && Survives(runs, k, i)
  {
    if k > 0 {
      VersionedSince(runs, k - 1, i);
      assert Follows(runs[k - 1], runs[k]);
      VersionedStays(runs[k - 1], runs[k], i);
    }
  }

  /** Over any sequence of updates, successful or not, versioning fits in the
      k-th exactly when every bucket that was versioned at first has gone missing
      since, or every bucket was versioned and none has gone missing.  So a mix
      ends only by losing all its versioned buckets. */
  lemma VersioningFitsOverRuns(runs: seq<Input>, k: nat)
    requires IsSequence(runs) && k < |runs| && VersioningUnasked(runs[0].spec) && Versions in runs[0].kinds
    ensures VersioningFits(runs[k]) <==>
            || (forall i :: 0 <= i < |runs[0].names| && Versioned(runs[0], i) ==> !Survives(runs, k, i))
            || (forall i :: 0 <= i < |runs[0].names| ==> Versioned(runs[0], i) && Survives(runs, k, i))
  {
    assert runs[k].Valid();
    forall i: nat | i < |runs[0].names|
      ensures Versioned(runs[k], i) <==> Versioned(runs[0], i) && Survives(runs, k, i)
    {
      VersionedSince(runs, k, i);
    }
    FitsByVersioned(runs[k]);
  }

  lemma FitsByVersioned(c: Input)
    requires c.Valid() && VersioningUnasked(c.spec) && Versions in c.kinds
    ensures VersioningFits(c) <==>
            || (forall i :: 0 <= i < |c.names| ==> !Versioned(c, i))
            || (forall i :: 0 <= i < |c.names| ==> Versioned(c, i))
  {
    assert forall i :: 0 <= i < |c.names| ==>
             (Versioned(c, i) <==> c.replies[i].Held(c.spec).versioning != UNVERSIONED);
  }

  predicate LockFits(c: Input)
    requires c.Valid()
  {
    c.spec.objectLock.Some? ==> Lock in c.kinds && c.spec.LockEnabled()
  }

  /** The table holds for every backend what a successful goroutine leaves. */
  ghost predicate AllRecorded(c: Input, table: Backends)
    requires c.Valid()
  {
    forall i :: 0 <= i < |c.names| ==> RecordedAt(c, table, i)
  }

  predicate RecordedAt(c: Input, table: Backends, i: nat)
    requires c.Valid() && i < |c.names|
  {
    && c.names[i] in table && table[c.names[i]].bucket == AVAILABLE
    && table[c.names[i]].lifecycle == RecordedFor(c, c.replies[i], Lifecycle)
    && table[c.names[i]].versioning == RecordedFor(c, c.replies[i], Versions)
    && table[c.names[i]].objectLock == RecordedFor(c, c.replies[i], Lock)
  }

  lemma SuccessRecorded(c: Input, run: seq<F.Event>, s: F.State)
    requires c.Valid() && NoDuplicates(c.names) && F.Run(Plan(c), run) == Some(s) && F.Done(Plan(c), s)
    requires forall i :: 0 <= i < |c.names| ==> Succeeded(c, c.replies[i])
    ensures AllRecorded(c, s.table)
  {
    forall i: nat | i < |c.names| ensures RecordedAt(c, s.table, i) {
      EndEntry(c, run, s, i);
      SuccessEntry(c, i);
      var e := Replay(None, ScriptOf(c, i)).value;
      assert FieldOf(e, Lifecycle) == e.lifecycle && FieldOf(e, Versions) == e.versioning
          && FieldOf(e, Lock) == e.objectLock;
    }
  }

  lemma FitsExactly(c: Input, table: Backends)
    requires c.Valid() && AllRecorded(c, table)
    ensures ConditionsMatch(c.spec, table, c.names) <==> Fits(c)
  {
    if c.names != [] {
      VersioningFitsExactly(c, table);
      LifecycleFitsExactly(c, table);
      ByPosition(c, table, Some(AVAILABLE));
      assert c.spec.objectLock.Some? ==> (ObjectLockIs(table, c.names, Some(AVAILABLE)) <==> LockFits(c)) by {
        assert RecordedFor(c, c.replies[0], Lock) == Some(AVAILABLE) <==> Lock in c.kinds && c.spec.LockEnabled();
      }
    }
  }

  lemma VersioningFitsExactly(c: Input, table: Backends)
    requires c.Valid() && AllRecorded(c, table) && c.names != []
    ensures VersioningFits(c) <==>
            && (c.spec.versioning.Some? ==> VersioningIs(table, c.names, Some(AVAILABLE)))
            && (VersioningIs(table, c.names, None) || VersioningIs(table, c.names, Some(AVAILABLE)))
  {
    ByPosition(c, table, None);
    ByPosition(c, table, Some(AVAILABLE));
    assert RecordedFor(c, c.replies[0], Versions).Some? ==> Versions in c.kinds;
  }

  lemma LifecycleFitsExactly(c: Input, table: Backends)
    requires c.Valid() && AllRecorded(c, table) && c.names != []
    ensures LifecycleFits(c) <==>
            && (!c.spec.lifecycleDisabled && c.spec.lifecycle.Some? ==> LifecycleIs(table, c.names, Some(AVAILABLE)))
            && (c.spec.lifecycleDisabled ==> LifecycleIs(table, c.names, None))
  {
    ByPosition(c, table, None);
    ByPosition(c, table, Some(AVAILABLE));
    assert RecordedFor(c, c.replies[0], Lifecycle).Some? ==> Lifecycle in c.kinds;
  }

  /** The names and the positions say the same. */
  lemma ByPosition(c: Input, table: Backends, v: Option<Condition>)
    requires c.Valid() && AllRecorded(c, table)
    ensures LifecycleIs(table, c.names, v) <==>
            forall i :: 0 <= i < |c.names| ==> RecordedFor(c, c.replies[i], Lifecycle) == v
    ensures VersioningIs(table, c.names, v) <==>
            forall i :: 0 <= i < |c.names| ==> RecordedFor(c, c.replies[i], Versions) == v
    ensures ObjectLockIs(table, c.names, v) <==>
            forall i :: 0 <= i < |c.names| ==> RecordedFor(c, c.replies[i], Lock) == v
  {
    forall i | 0 <= i < |c.names|
      ensures c.names[i] in c.names
      ensures InfoOf(table, c.names[i]).lifecycle == RecordedFor(c, c.replies[i], Lifecycle)
      ensures InfoOf(table, c.names[i]).versioning == RecordedFor(c, c.replies[i], Versions)
      ensures InfoOf(table, c.names[i]).objectLock == RecordedFor(c, c.replies[i], Lock)
    {
      assert RecordedAt(c, table, i);
    }
  }

  /** Exactly when the pause label is to be set after a finished run: the names
      are distinct and meet the quota, every goroutine had a stored client and
      succeeded, what the backends held fits, pausing is on and the label is
      absent or empty. */
  lemma PauseExactly(c: Input, run: seq<F.Event>, s: F.State, before: Status, status: Status, labels: Labels,
                     minReplicas: nat, clients: set<string>, autopauseEnabled: bool)
    requires c.Valid() && F.Run(Plan(c), run) == Some(s) && F.Done(Plan(c), s)
    requires IsStatusAfter(before, status, s.table, c.names, minReplicas)
    ensures PauseRequired(c.spec, labels, status, c.names, clients, s.table, autopauseEnabled) <==>
            && NoDuplicates(c.names) && |c.names| >= minReplicas
            && (forall i :: 0 <= i < |c.names| ==> c.names[i] in clients && Succeeded(c, c.replies[i]))
            && Fits(c) && (c.spec.autoPause || autopauseEnabled) && PauseLabel(labels) == ""
  {
    var required := PauseRequired(c.spec, labels, status, c.names, clients, s.table, autopauseEnabled);
    if required {
      PauseImpliesReconciled(c, run, s, before, status, labels, minReplicas, clients, autopauseEnabled);
    }
    if NoDuplicates(c.names) && |c.names| >= minReplicas
       && forall i :: 0 <= i < |c.names| ==> c.names[i] in clients && Succeeded(c, c.replies[i])
    {
      SuccessRecorded(c, run, s);
      FitsExactly(c, s.table);
      ReadyAndSynced(c, s, before, status, minReplicas);
      forall n | n in c.names ensures B.AvailableOn(s.table, clients, n) {
        var i :| 0 <= i < |c.names| && c.names[i] == n;
        assert RecordedAt(c, s.table, i);
      }
    }
  }

  lemma ReadyAndSynced(c: Input, s: F.State, before: Status, status: Status, minReplicas: nat)
    requires c.Valid() && NoDuplicates(c.names) && |c.names| >= minReplicas && AllRecorded(c, s.table)
    requires IsStatusAfter(before, status, s.table, c.names, minReplicas)
    ensures status.GetCondition(Ready) == AVAILABLE && status.GetCondition(Synced) == RECONCILE_SUCCESS
  {
    forall n | n in c.names ensures n in s.table && s.table[n].bucket == AVAILABLE {
      var i :| 0 <= i < |c.names| && c.names[i] == n;
      assert RecordedAt(c, s.table, i);
    }
    CountAgainstPositions(s.table, c.names);
  }

  // --- the methods ---------------------------------------------------------------------------

  /** updateOnAllBackends under an arbitrary scheduler: it ends, and what it
      leaves in the table and returns is the end of some run; with distinct names
      the table is that of the sequential run. */
  method UpdateOnAllBackends(c: Input, bb: B.BucketBackends, name: string)
    returns (firstErr: Option<Error>, ghost run: seq<F.Event>)
    requires c.Valid() && bb.Of(name) == map[]
    modifies bb
    ensures F.Run(Plan(c), run).Some? && F.Done(Plan(c), F.Run(Plan(c), run).value)
    ensures bb.Of(name) == F.Run(Plan(c), run).value.table && firstErr == F.Run(Plan(c), run).value.firstErr
    ensures NoDuplicates(c.names) ==> bb.Of(name) == F.Sequential(Plan(c), |c.names|)
    ensures forall b :: b != name ==> bb.Of(b) == old(bb.Of(b))
  {
    firstErr, run := F.RunAll(Plan(c), bb, name);
    if NoDuplicates(c.names) { F.EndsLikeSequential(Plan(c), run, F.Run(Plan(c), run).value); }
  }

  /** The goroutine of one backend, statement by statement. */
  method UpdateOnBackend(c: Input, i: nat, name: string, be: BackendBucket, bb: B.BucketBackends)
    returns (err: Option<Error>)
    requires c.Valid() && i < |c.names| && be.config == c.replies[i].config
    modifies be, bb
    ensures bb.Of(name) == ApplyAll(old(bb.Of(name)), c.names[i], Script(c.spec, c.kinds, c.recreate, c.replies[i]).0)
    ensures err == Script(c.spec, c.kinds, c.recreate, c.replies[i]).1
  {
    var r, beName := c.replies[i], c.names[i];
    if r.exists_.Err? {
      bb.SetBucketCondition(name, beName, UNAVAILABLE.WithMessage(r.exists_.error));
      return Some(r.exists_.error);
    }
    if !r.exists_.value {
      if !c.recreate {
        bb.RemoveBackend(name, beName);
        return None;
      }
      if r.createErr.Some? { return r.createErr; }
      be.config := r.Held(c.spec);
    }
    ghost var o := DoUpdate(c.kinds, c.spec, r.Held(c.spec), r.handlers);
    err := DoUpdateOnBackend(c.kinds, c.spec, name, beName, be, bb, r.handlers);
    var last := AVAILABLE;
    if err.Some? {
      last := UNAVAILABLE.WithMessage(err.value);
    } else if r.unhealthyAtEnd {
      last := UNAVAILABLE.WithMessage(MARKED_UNHEALTHY);
    }
    bb.SetBucketCondition(name, beName, last);
    ApplyAllConcat(old(bb.Of(name)), beName, o.writes, [SetBucket(last)]);
  }
}
