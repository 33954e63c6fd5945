// DeleteBucket with forceDelete (internal/rgw/bucket.go:77-110): one goroutine
// deletes current objects, another deletes versions, both on the same bucket,
// and the bucket itself is deleted when both are done.  Every call of either
// goroutine, down to the deletion of one entry, is one event of a run.

module PurgeProtocol {
  import opened Wrappers
  import opened ObjectStore
  import opened Sets

  /** deleteBucketObjects; `todo` holds the keys of the page still to delete. */
  datatype ObjectThread =
    | ListingObjects
    | DeletingObjects(todo: set<nat>, goOn: bool, failed: bool)
    | ObjectsDone
    | ObjectsFailed

  /** deleteBucketObjectVersions, with its cursor. */
  datatype VersionThread =
    | ListingVersions(cursor: Option<Position>)
    | DeletingVersions(from: Option<Position>, left: set<Entry>, more: bool, next: Option<Position>, bad: bool)
    | VersionsDone
    | VersionsFailed

  /** DeleteBucket itself: waiting for the group, then the final DeleteBucket call. */
  datatype Outcome = Waiting | PurgeError | CallFailed | NotEmptyError | Deleted

  datatype State = State(
    versioned: bool,
    entries: set<Entry>,
    newest: int,
    objects: ObjectThread,
    versions: VersionThread,
    outcome: Outcome)

  datatype Event =
    | ListObjects(objectPage: ObjectPage)
    | ListObjectsFails
    | DeleteObject(key: nat, ok: bool)
    | EndObjectPage
    | ListVersions(versionPage: VersionPage)
    | ListVersionsFails
    | DeleteObjectVersion(entry: Entry, ok: bool)
    | EndVersionPage
    | Finish(callOk: bool)

  predicate Initial(s: State) {
    && s.objects.ListingObjects? && s.versions == ListingVersions(None) && s.outcome.Waiting?
    && Ranked(s)
    && (!s.versioned ==> forall e :: e in s.entries ==> !e.marker)
  }

  predicate Ranked(s: State) {
    forall e :: e in s.entries ==> s.newest < e.rank
  }

  ghost predicate Enabled(s: State, e: Event) {
    match e
    // The token sent is always the first one, none: the store echoes it.
    case ListObjects(page) => s.objects.ListingObjects? && IsObjectPage(s.entries, None, page)
    case ListObjectsFails => s.objects.ListingObjects?
    case DeleteObject(k, _) => s.objects.DeletingObjects? && k in s.objects.todo
    case EndObjectPage => s.objects.DeletingObjects? && s.objects.todo == {}
    case ListVersions(page) => s.versions.ListingVersions? && IsVersionPage(s.entries, s.versions.cursor, page)
    case ListVersionsFails => s.versions.ListingVersions?
    case DeleteObjectVersion(entry, _) => s.versions.DeletingVersions? && entry in s.versions.left
    case EndVersionPage => s.versions.DeletingVersions? && s.versions.left == {}
    case Finish(_) =>
      && s.outcome.Waiting?
      && (s.objects.ObjectsDone? || s.objects.ObjectsFailed?)
      && (s.versions.VersionsDone? || s.versions.VersionsFailed?)
  }

  ghost function Apply(s: State, e: Event): State
    requires Enabled(s, e)
  {
    match e
    case ListObjects(page) => s.(objects := DeletingObjects(page.contents, page.GoOn(), false))
    case ListObjectsFails => s.(objects := ObjectsFailed)
    case DeleteObject(k, ok) =>
      var t := s.(objects := s.objects.(todo := s.objects.todo - {k}, failed := s.objects.failed || !ok));
      if ok then t.(entries := DeleteCurrent(s.versioned, s.entries, s.newest, k), newest := s.newest - 1) else t
    case EndObjectPage =>
      s.(objects := if s.objects.failed then ObjectsFailed
                    else if s.objects.goOn then ListingObjects else ObjectsDone)
    case ListVersions(page) =>
      var listed := page.deleteMarkers + page.versions;
      s.(versions := DeletingVersions(s.versions.cursor, listed, page.GoOn(), page.next, false))
    case ListVersionsFails => s.(versions := VersionsFailed)
    case DeleteObjectVersion(entry, ok) =>
      var t := s.(versions := s.versions.(left := s.versions.left - {entry}, bad := s.versions.bad || !ok));
      if ok then t.(entries := DeleteVersion(s.entries, entry)) else t
    case EndVersionPage =>
      s.(versions := if s.versions.bad then VersionsFailed
                     else if s.versions.more then ListingVersions(s.versions.next) else VersionsDone)
    case Finish(callOk) =>
      s.(outcome := if s.objects.ObjectsFailed? || s.versions.VersionsFailed? then PurgeError
                    else if !callOk then CallFailed
                    else if s.entries != {} then NotEmptyError else Deleted)
  }

  ghost function Run(s: State, run: seq<Event>): Option<State> {
    if run == [] then Some(s)
    else
      var before := Run(s, run[..|run| - 1]);
      var last := run[|run| - 1];
      if before.Some? && Enabled(before.value, last) then Some(Apply(before.value, last)) else None
  }

  // --- what every step keeps, in an unversioned bucket ---------------------

  /** Everything still in the bucket at or before the cursor is on the page
      being deleted. */
  ghost predicate VersionsOk(s: State) {
    match s.versions
    case ListingVersions(cursor) => s.entries == After(s.entries, cursor)
    case DeletingVersions(from, left, more, next, bad) =>
      && (more ==> next.Some?)
      && (!bad ==> if more then s.entries <= left + After(s.entries, next) else s.entries <= left)
    case VersionsDone => s.entries == {}
    case _ => true
  }

  /** So is everything current, when the object page was the last. */
  ghost predicate Inv(s: State) {
    && !s.versioned && Ranked(s)
    && (forall e :: e in s.entries ==> !e.marker)
    && (match s.objects
        case DeletingObjects(todo, goOn, failed) => !failed && !goOn ==> forall e :: e in s.entries ==> e.key in todo
        case ObjectsDone => s.entries == {}
        case _ => true)
    && VersionsOk(s)
    && !s.outcome.NotEmptyError?
    && (s.outcome.Deleted? ==> s.entries == {} && s.objects.ObjectsDone? && s.versions.VersionsDone?)
    && (s.outcome.PurgeError? ==> s.objects.ObjectsFailed? || s.versions.VersionsFailed?)
  }

  /** Without delete markers every key in the bucket is current. */
  lemma AllCurrent(entries: set<Entry>, e: Entry)
    requires e in entries && forall d :: d in entries ==> !d.marker
    ensures e.key in Current(entries)
  {
    var versions := set d | d in entries && d.key == e.key;
    assert e in versions;
    var first := Newest(versions);
    assert forall d :: d in entries && d.key == first.key ==> d in versions;
  }

  lemma {:induction false} Newest(entries: set<Entry>) returns (e: Entry)
    requires entries != {}
    ensures e in entries && forall d :: d in entries ==> e.rank <= d.rank
  {
    var first :| first in entries;
    var rest := entries - {first};
    e := first;
    if rest != {} {
      var d := Newest(rest);
      if d.rank < e.rank { e := d; }
    }
    forall x | x in entries ensures e.rank <= x.rank {
      assert x == first || x in rest;
    }
  }

  /** Each goroutine's steps keep the invariant of both: a deletion of one only
      removes entries, which the other's invariant allows. */
  lemma StepInv(s: State, e: Event)
    requires Inv(s) && Enabled(s, e)
    ensures Inv(Apply(s, e))
    ensures Apply(s, e).entries <= s.entries
  {
    match e
    case ListObjects(page) =>
      forall d | d in s.entries && !page.GoOn() ensures d.key in page.contents {
        AllCurrent(s.entries, d);
      }
    case ListVersions(page) =>
      assert page.Listed() == page.deleteMarkers + page.versions;
      if page.GoOn() {
        assert s.entries <= page.Listed() + After(s.entries, page.next);
      }
    case _ =>
  }

  lemma {:induction false} ReachableInv(s: State, run: seq<Event>, t: State)
    requires Initial(s) && !s.versioned && Run(s, run) == Some(t)
    ensures Inv(t) && t.entries <= s.entries
  {
    if run != [] {
      var p := Run(s, run[..|run| - 1]).value;
      ReachableInv(s, run[..|run| - 1], p);
      StepInv(p, run[|run| - 1]);
    }
  }

  /** In an unversioned bucket every interleaving that ends without an error
      has emptied and deleted it; "not empty" is never the answer. */
  lemma UnversionedPurgeEmpties(s: State, run: seq<Event>, t: State)
    requires Initial(s) && !s.versioned && Run(s, run) == Some(t)
    ensures t.objects.ObjectsDone? || t.versions.VersionsDone? ==> t.entries == {}
    ensures !t.outcome.NotEmptyError?
    ensures t.outcome.Deleted? ==> t.entries == {} && t.objects.ObjectsDone? && t.versions.VersionsDone?
    ensures t.outcome.PurgeError? ==> t.objects.ObjectsFailed? || t.versions.VersionsFailed?
  {
    ReachableInv(s, run, t);
  }

  // --- an error means a failed call ------------------------------------------------------

  /** One of the program's calls is answered with an error. */
  predicate CallFails(e: Event) {
    || e.ListObjectsFails? || e.ListVersionsFails? || (e.DeleteObject? && !e.ok)
    || (e.DeleteObjectVersion? && !e.ok) || (e.Finish? && !e.callOk)
  }

  /** A goroutine has failed or is about to, or the answer is an error other than
      "not empty". */
  predicate Troubled(s: State) {
    || s.objects.ObjectsFailed? || (s.objects.DeletingObjects? && s.objects.failed)
    || s.versions.VersionsFailed? || (s.versions.DeletingVersions? && s.versions.bad)
    || s.outcome.PurgeError? || s.outcome.CallFailed?
  }

  /** Once there is an answer both goroutines have returned, and the answer tells
      trouble. */
  predicate Answered(s: State) {
    && !s.objects.ListingObjects? && !s.objects.DeletingObjects?
    && !s.versions.ListingVersions? && !s.versions.DeletingVersions?
    && (s.outcome.PurgeError? || s.outcome.CallFailed? <==> Troubled(s))
    && (s.outcome.Deleted? ==> s.entries == {}) && (s.outcome.NotEmptyError? ==> s.entries != {})
  }

  lemma TroubleStep(s: State, e: Event)
    requires Enabled(s, e) && (!s.outcome.Waiting? ==> Answered(s))
    ensures Troubled(Apply(s, e)) <==> Troubled(s) || CallFails(e)
    ensures !Apply(s, e).outcome.Waiting? ==> Answered(Apply(s, e))
  {
  }

  lemma {:induction false} TroubleExactly(s: State, run: seq<Event>, t: State)
    requires Initial(s) && Run(s, run) == Some(t)
    ensures Troubled(t) <==> exists e :: e in run && CallFails(e)
    ensures !t.outcome.Waiting? ==> Answered(t)
  {
    if run != [] {
      var p, last := Run(s, run[..|run| - 1]).value, run[|run| - 1];
      TroubleExactly(s, run[..|run| - 1], p);
      TroubleStep(p, last);
      assert run == run[..|run| - 1] + [last];
      assert forall e :: e in run <==> e in run[..|run| - 1] || e == last;
    }
  }

  /** A finished deletion, of whatever bucket, under whatever schedule, answers
      with an error other than "not empty" exactly if some call failed; without
      a failed call an unversioned bucket is always deleted. */
  lemma ErrorExactly(s: State, run: seq<Event>, t: State)
    requires Initial(s) && Run(s, run) == Some(t) && !t.outcome.Waiting?
    ensures t.outcome.PurgeError? || t.outcome.CallFailed? <==> exists e :: e in run && CallFails(e)
    ensures t.outcome.Deleted? ==> t.entries == {}
    ensures !s.versioned && (forall e :: e in run ==> !CallFails(e)) ==> t.outcome.Deleted?
    ensures (forall e :: e in run ==> !CallFails(e)) ==> t.outcome == if t.entries == {} then Deleted else NotEmptyError
  {
    TroubleExactly(s, run, t);
    if !s.versioned { UnversionedPurgeEmpties(s, run, t); }
  }

  // --- every schedule ends, in versioned buckets too ---------------------------------

  ghost function KeysOf(entries: set<Entry>): set<nat> { set e | e in entries :: e.key }

  function KeysAfter(keys: set<nat>, cursor: Option<Position>): set<nat> {
    set k | k in keys && (cursor.Some? ==> cursor.value.key < k)
  }

  /** The entries of the cursor's own key that come after it. */
  function RestOfKey(entries: set<Entry>, cursor: Option<Position>): set<Entry> {
    if cursor.None? then {}
    else set e | e in entries && e.key == cursor.value.key && cursor.value.rank < e.rank
  }

  /** The object goroutine's share, given the keys that are current. */
  function ObjectShare(current: set<nat>, o: ObjectThread): nat {
    match o
    case ListingObjects => 3 * |current| + 2
    case DeletingObjects(todo, goOn, failed) => |todo| + 1 + if failed || !goOn then 0 else 3 * |current - todo| + 2
    case _ => 0
  }

  function ObjectRank(s: State): nat { ObjectShare(Current(s.entries), s.objects) }

  /** What is left to do, most significant first.  The version goroutine has one
      more page to list or not; the keys its cursor has not passed; what is left
      of the cursor's key; its page.  Then the object goroutine's share, which
      the version goroutine may raise, and the final call. */
  datatype Measure = Measure(paging: nat, keysAfter: nat, rest: nat, page: nat, objects: nat, waiting: nat) {
    predicate Below(m: Measure) {
      paging < m.paging || (paging == m.paging && (
      keysAfter < m.keysAfter || (keysAfter == m.keysAfter && (
      rest < m.rest || (rest == m.rest && (
      page < m.page || (page == m.page && (
      objects < m.objects || (objects == m.objects && waiting < m.waiting)))))))))
    }
  }

  function MeasureOf(keys: set<nat>, s: State): Measure {
    var waiting := if s.outcome.Waiting? then 1 else 0;
    match s.versions
    case ListingVersions(c) => Measure(1, |KeysAfter(keys, c)|, |RestOfKey(s.entries, c)|, 0, ObjectRank(s), waiting)
    case DeletingVersions(_, left, true, c, _) =>
      Measure(1, |KeysAfter(keys, c)|, |RestOfKey(s.entries, c)|, |left| + 1, ObjectRank(s), waiting)
    case DeletingVersions(_, left, false, _, _) => Measure(0, 0, 0, |left| + 1, ObjectRank(s), waiting)
    case _ => Measure(0, 0, 0, 0, ObjectRank(s), waiting)
  }

  /** No key but the initial ones appears, and a new delete marker, being the
      newest of its key, comes before any cursor within that key. */
  ghost predicate Within(keys: set<nat>, s: State) {
    && Ranked(s) && KeysOf(s.entries) <= keys
    && (s.objects.DeletingObjects? ==> s.objects.todo <= keys)
    && (match s.versions
        case ListingVersions(cursor) => cursor.Some? ==> s.newest < cursor.value.rank
        case DeletingVersions(_, _, more, next, _) => more ==> next.Some? && s.newest < next.value.rank
        case _ => true)
  }

  lemma StepWithin(keys: set<nat>, s: State, e: Event)
    requires Within(keys, s) && Enabled(s, e)
    ensures Within(keys, Apply(s, e))
  {
    match e
    case ListObjects(page) => assert page.contents <= Current(s.entries) <= KeysOf(s.entries);
    case DeleteObject(k, ok) =>
      assert k in keys;
      assert forall d :: d in Apply(s, e).entries ==> d in s.entries || d.key == k;
    case _ =>
  }

  /** A page that goes on moves the cursor past an entry: to a later key, or
      further within the same one. */
  lemma CursorMoves(keys: set<nat>, s: State, page: VersionPage)
    requires Within(keys, s) && Enabled(s, ListVersions(page)) && page.GoOn()
    ensures var c, n := s.versions.cursor, page.next;
            || |KeysAfter(keys, n)| < |KeysAfter(keys, c)|
            || (|KeysAfter(keys, n)| == |KeysAfter(keys, c)| && |RestOfKey(s.entries, n)| < |RestOfKey(s.entries, c)|)
  {
    var c, n := s.versions.cursor, page.next;
    var e :| e in page.Listed() && e.Pos() == n.value;
    assert e in After(s.entries, c);
    assert e.key in KeysOf(s.entries);
    if c.Some? && e.key == c.value.key {
      assert KeysAfter(keys, n) == KeysAfter(keys, c);
      SmallerSet(RestOfKey(s.entries, n), RestOfKey(s.entries, c), e);
    } else {
      SmallerSet(KeysAfter(keys, n), KeysAfter(keys, c), e.key);
    }
  }

  lemma SmallerSet<T>(small: set<T>, large: set<T>, x: T)
    requires small <= large && x in large && x !in small
    ensures |small| < |large|
  {
    SubsetSize(small, large - {x});
  }

  /** The events of deleteBucketObjects. */
  predicate ByObjects(e: Event) { e.ListObjects? || e.ListObjectsFails? || e.DeleteObject? || e.EndObjectPage? }

  lemma ListObjectsRank(s: State, page: ObjectPage)
    requires Enabled(s, ListObjects(page))
    ensures ObjectRank(Apply(s, ListObjects(page))) < ObjectRank(s)
  {
    var current := Current(s.entries);
    assert page.contents <= current;
    assert |current| == |current - page.contents| + |page.contents|;
  }

  lemma DeleteLowersShare(current: set<nat>, o: ObjectThread, k: nat, ok: bool)
    requires o.DeletingObjects? && k in o.todo
    ensures ObjectShare(if ok then current - {k} else current, o.(todo := o.todo - {k}, failed := o.failed || !ok))
            < ObjectShare(current, o)
  {
    assert |o.todo - {k}| == |o.todo| - 1;
    assert (current - {k}) - (o.todo - {k}) == current - o.todo;
  }

  lemma DeleteObjectMoves(s: State, k: nat, ok: bool)
    requires Ranked(s) && Enabled(s, DeleteObject(k, ok))
    ensures var t := Apply(s, DeleteObject(k, ok));
            && t.objects == s.objects.(todo := s.objects.todo - {k}, failed := s.objects.failed || !ok)
            && Current(t.entries) == if ok then Current(s.entries) - {k} else Current(s.entries)
  {
    if ok {
      DeleteCurrentHidesKey(s.versioned, s.entries, s.newest, k);
    } else {
      assert Apply(s, DeleteObject(k, ok)).entries == s.entries;
    }
  }

  lemma DeleteObjectRank(s: State, t: State, k: nat, ok: bool)
    requires s.objects.DeletingObjects? && k in s.objects.todo
    requires t.objects == s.objects.(todo := s.objects.todo - {k}, failed := s.objects.failed || !ok)
    requires Current(t.entries) == if ok then Current(s.entries) - {k} else Current(s.entries)
    ensures ObjectRank(t) < ObjectRank(s)
  {
    DeleteLowersShare(Current(s.entries), s.objects, k, ok);
  }

  lemma EndLowersShare(current: set<nat>, o: ObjectThread)
    requires o.DeletingObjects? && o.todo == {}
    ensures ObjectShare(current, if o.failed then ObjectsFailed else if o.goOn then ListingObjects else ObjectsDone)
            < ObjectShare(current, o)
  {
    assert current - {} == current;
  }

  lemma ObjectStepRank(s: State, e: Event)
    requires Ranked(s) && Enabled(s, e) && ByObjects(e)
    ensures ObjectRank(Apply(s, e)) < ObjectRank(s)
  {
    if e.ListObjects? {
      ListObjectsRank(s, e.objectPage);
    } else if e.DeleteObject? {
      var t := Apply(s, DeleteObject(e.key, e.ok));
      DeleteObjectMoves(s, e.key, e.ok);
      DeleteObjectRank(s, t, e.key, e.ok);
    } else if e.EndObjectPage? {
      EndLowersShare(Current(s.entries), s.objects);
    }
  }

  /** A deletion, versioned or not, adds nothing after the cursor in its key. */
  lemma ObjectStepKeepsRest(keys: set<nat>, s: State, e: Event, cursor: Option<Position>)
    requires Within(keys, s) && Enabled(s, e) && ByObjects(e) && (cursor.Some? ==> s.newest < cursor.value.rank)
    ensures |RestOfKey(Apply(s, e).entries, cursor)| <= |RestOfKey(s.entries, cursor)|
  {
    SubsetSize(RestOfKey(Apply(s, e).entries, cursor), RestOfKey(s.entries, cursor));
  }

  lemma ObjectStepLowers(keys: set<nat>, s: State, e: Event)
    requires Within(keys, s) && Enabled(s, e) && ByObjects(e)
    ensures MeasureOf(keys, Apply(s, e)).Below(MeasureOf(keys, s))
  {
    ObjectStepRank(s, e);
    if s.versions.ListingVersions? { ObjectStepKeepsRest(keys, s, e, s.versions.cursor); }
    if s.versions.DeletingVersions? && s.versions.more { ObjectStepKeepsRest(keys, s, e, s.versions.next); }
  }

  lemma DeleteVersionLowers(keys: set<nat>, s: State, d: Entry, ok: bool)
    requires Enabled(s, DeleteObjectVersion(d, ok))
    ensures MeasureOf(keys, Apply(s, DeleteObjectVersion(d, ok))).Below(MeasureOf(keys, s))
  {
    var t := Apply(s, DeleteObjectVersion(d, ok));
    assert |s.versions.left - {d}| == |s.versions.left| - 1;
    SubsetSize(RestOfKey(t.entries, s.versions.next), RestOfKey(s.entries, s.versions.next));
  }

  lemma VersionStepLowers(keys: set<nat>, s: State, e: Event)
    requires Within(keys, s) && Enabled(s, e) && !ByObjects(e)
    ensures MeasureOf(keys, Apply(s, e)).Below(MeasureOf(keys, s))
  {
    match e
    case ListVersions(page) => if page.GoOn() { CursorMoves(keys, s, page); }
    case DeleteObjectVersion(d, ok) => DeleteVersionLowers(keys, s, d, ok);
    case _ =>
  }

  lemma StepLowers(keys: set<nat>, s: State, e: Event)
    requires Within(keys, s) && Enabled(s, e)
    ensures MeasureOf(keys, Apply(s, e)).Below(MeasureOf(keys, s))
  {
    if ByObjects(e) { ObjectStepLowers(keys, s, e); } else { VersionStepLowers(keys, s, e); }
  }

  lemma {:induction false} ReachableWithin(s: State, run: seq<Event>, t: State)
    requires Initial(s) && Run(s, run) == Some(t)
    ensures Within(KeysOf(s.entries), t)
  {
    if run != [] {
      var p := Run(s, run[..|run| - 1]).value;
      ReachableWithin(s, run[..|run| - 1], p);
      StepWithin(KeysOf(s.entries), p, run[|run| - 1]);
    }
  }

  /** From every reachable state every step of either goroutine lowers the
      measure, although one adds markers that the other has to delete, and that
      deletion makes keys current again, and although the token never advances. */
  lemma StepRank(s: State, run: seq<Event>, t: State, e: Event)
    requires Initial(s) && Run(s, run) == Some(t) && Enabled(t, e)
    ensures MeasureOf(KeysOf(s.entries), Apply(t, e)).Below(MeasureOf(KeysOf(s.entries), t))
  {
    ReachableWithin(s, run, t);
    StepLowers(KeysOf(s.entries), t, e);
  }

  /** The first `n` events of an endless schedule. */
  function Prefix(schedule: nat -> Event, n: nat): seq<Event> { seq(n, i requires 0 <= i < n => schedule(i)) }

  /** No schedule goes on for ever: of every endless sequence of events, some
      finite part is not a run. */
  lemma RunsEnd(s: State, schedule: nat -> Event)
    requires Initial(s)
    ensures exists n: nat :: Run(s, Prefix(schedule, n)).None?
  {
    EndsFrom(s, schedule, 0, s);
  }

  lemma EndsFrom(s: State, schedule: nat -> Event, n: nat, t: State)
    requires Initial(s) && Run(s, Prefix(schedule, n)) == Some(t)
    ensures exists m: nat :: Run(s, Prefix(schedule, m)).None?
    decreases MeasureOf(KeysOf(s.entries), t).paging, MeasureOf(KeysOf(s.entries), t).keysAfter,
              MeasureOf(KeysOf(s.entries), t).rest, MeasureOf(KeysOf(s.entries), t).page,
              MeasureOf(KeysOf(s.entries), t).objects, MeasureOf(KeysOf(s.entries), t).waiting
  {
    var next := Prefix(schedule, n + 1);
    assert next[..n] == Prefix(schedule, n);
    if Run(s, next).Some? {
      StepRank(s, Prefix(schedule, n), t, schedule(n));
      EndsFrom(s, schedule, n + 1, Run(s, next).value);
    }
  }

  /** A run that has not finished can go on: no goroutine waits for ever. */
  lemma Progress(s: State, run: seq<Event>, t: State)
    requires Run(s, run) == Some(t) && t.outcome.Waiting?
    ensures exists e :: Enabled(t, e)
  {
    if t.objects.ListingObjects? {
      assert Enabled(t, ListObjectsFails);
    } else if t.objects.DeletingObjects? {
      if t.objects.todo == {} { assert Enabled(t, EndObjectPage); }
      else { var k :| k in t.objects.todo; assert Enabled(t, DeleteObject(k, true)); }
    } else if t.versions.ListingVersions? {
      assert Enabled(t, ListVersionsFails);
    } else if t.versions.DeletingVersions? {
      if t.versions.left == {} { assert Enabled(t, EndVersionPage); }
      else { var d :| d in t.versions.left; assert Enabled(t, DeleteObjectVersion(d, true)); }
    } else {
      assert Enabled(t, Finish(true));
    }
  }

  // --- an unversioned bucket: how long a run can be -------------------------------------

  function VersionRank(s: State): nat {
    match s.versions
    case ListingVersions(cursor) => 3 * |After(s.entries, cursor)| + 2
    case DeletingVersions(from, left, more, next, bad) =>
      |left| + 1 + if more then 3 * |After(s.entries, next)| + 2 else 0
    case _ => 0
  }

  function Rank(s: State): nat {
    ObjectRank(s) + VersionRank(s) + (if s.outcome.Waiting? then 1 else 0)
  }

  /** Listing a truncated page moves at least one entry out of what is left. */
  lemma ListVersionsRank(s: State, e: Event)
    requires Enabled(s, e) && e.ListVersions?
    ensures VersionRank(Apply(s, e)) < VersionRank(s)
  {
    var page, cursor := e.versionPage, s.versions.cursor;
    assert page.Listed() == page.deleteMarkers + page.versions;
    var before := After(s.entries, cursor);
    if page.GoOn() {
      var rest := After(s.entries, page.next);
      assert rest == before - page.Listed();
      assert page.Listed() <= before;
      assert |before| == |rest| + |page.Listed()|;
    }
  }

  /** Removals never raise the rank of the goroutine that waits. */
  lemma RemovalKeepsVersionRank(s: State, e: Event)
    requires Inv(s) && Enabled(s, e) && (e.DeleteObject? || e.DeleteObjectVersion?)
    ensures VersionRank(Apply(s, e)) <= VersionRank(s)
    ensures e.DeleteObjectVersion? ==> VersionRank(Apply(s, e)) < VersionRank(s)
  {
    var t := Apply(s, e);
    StepInv(s, e);
    if e.DeleteObjectVersion? { assert |s.versions.left - {e.entry}| == |s.versions.left| - 1; }
    if s.versions.ListingVersions? {
      SubsetSize(After(t.entries, s.versions.cursor), After(s.entries, s.versions.cursor));
    }
    if s.versions.DeletingVersions? {
      SubsetSize(After(t.entries, s.versions.next), After(s.entries, s.versions.next));
    }
  }

  lemma RemovalKeepsObjectRank(s: State, e: Event)
    requires Inv(s) && Enabled(s, e) && e.DeleteObjectVersion?
    ensures ObjectRank(Apply(s, e)) <= ObjectRank(s)
  {
    StepInv(s, e);
    CurrentShrinks(s.entries, Apply(s, e).entries);
    ShareMonotone(Current(Apply(s, e).entries), Current(s.entries), s.objects);
  }

  lemma ShareMonotone(small: set<nat>, large: set<nat>, o: ObjectThread)
    requires small <= large
    ensures ObjectShare(small, o) <= ObjectShare(large, o)
  {
    SubsetSize(small, large);
    if o.DeletingObjects? { SubsetSize(small - o.todo, large - o.todo); }
  }

  lemma CurrentShrinks(before: set<Entry>, after: set<Entry>)
    requires after <= before && forall e :: e in before ==> !e.marker
    ensures Current(after) <= Current(before)
  {
    forall k | k in Current(after) ensures k in Current(before) {
      var e :| e in after && e.key == k;
      AllCurrent(before, e);
    }
  }

  lemma UnversionedStepRank(s: State, e: Event)
    requires Inv(s) && Enabled(s, e)
    ensures Rank(Apply(s, e)) < Rank(s)
  {
    if ByObjects(e) { ObjectStepRank(s, e); }
    if e.ListVersions? { ListVersionsRank(s, e); }
    if e.DeleteObject? || e.DeleteObjectVersion? { RemovalKeepsVersionRank(s, e); }
    if e.DeleteObjectVersion? { RemovalKeepsObjectRank(s, e); }
  }

  lemma {:induction false} UnversionedRunsBounded(s: State, run: seq<Event>, t: State)
    requires Initial(s) && !s.versioned && Run(s, run) == Some(t)
    ensures |run| + Rank(t) <= Rank(s)
  {
    if run != [] {
      var p := Run(s, run[..|run| - 1]).value;
      ReachableInv(s, run[..|run| - 1], p);
      UnversionedStepRank(p, run[|run| - 1]);
      UnversionedRunsBounded(s, run[..|run| - 1], p);
    }
  }

  // --- a bucket holding only delete markers ----------------------------------------

  /** The object goroutine finds nothing to delete, so the other one is alone. */
  ghost predicate MarkersInv(s: State) {
    && s.versioned && (forall e :: e in s.entries ==> e.marker)
    && (s.objects.DeletingObjects? ==> s.objects.todo == {} && !s.objects.goOn)
    && VersionsOk(s)
    && !s.outcome.NotEmptyError?
  }

  lemma MarkersStep(s: State, e: Event)
    requires MarkersInv(s) && Enabled(s, e)
    ensures MarkersInv(Apply(s, e))
  {
    match e
    case ListVersions(page) =>
      assert page.Listed() == page.deleteMarkers + page.versions;
      if page.GoOn() {
        assert s.entries <= page.Listed() + After(s.entries, page.next);
      }
    case _ =>
  }

  lemma {:induction false} MarkersReachable(s: State, run: seq<Event>, t: State)
    requires Initial(s) && MarkersInv(s) && Run(s, run) == Some(t)
    ensures MarkersInv(t)
  {
    if run != [] {
      var p := Run(s, run[..|run| - 1]).value;
      MarkersReachable(s, run[..|run| - 1], p);
      MarkersStep(p, run[|run| - 1]);
    }
  }

  // --- a versioned bucket with an object need not end empty -----------------------------

  lemma Then(s: State, run: seq<Event>, p: State, e: Event) returns (longer: seq<Event>, t: State)
    requires Run(s, run) == Some(p) && Enabled(p, e)
    ensures t == Apply(p, e) && Run(s, longer) == Some(t)
  {
    longer, t := run + [e], Apply(p, e);
    assert (run + [e])[..|run|] == run;
  }

  /** The entries at none of the positions of `gone`. */
  function Elsewhere(entries: set<Entry>, gone: set<Entry>): set<Entry> {
    set d | d in entries && forall g :: g in gone ==> d.Pos() != g.Pos()
  }

  /** The version goroutine deletes the listed entries `todo`, in some order. */
  lemma {:induction false} DeleteListed(s: State, run: seq<Event>, p: State, todo: set<Entry>)
    returns (longer: seq<Event>, t: State)
    requires Run(s, run) == Some(p) && p.versions.DeletingVersions? && todo <= p.versions.left
    ensures Run(s, longer) == Some(t)
    ensures t == p.(entries := Elsewhere(p.entries, todo), versions := p.versions.(left := p.versions.left - todo))
    decreases todo
  {
    longer, t := run, p;
    if todo == {} {
      assert Elsewhere(p.entries, {}) == p.entries && p.versions.left - {} == p.versions.left;
    } else {
      var d :| d in todo;
      longer, t := Then(s, run, p, DeleteObjectVersion(d, true));
      ghost var next := t;
      longer, t := DeleteListed(s, longer, next, todo - {d});
      assert t.entries == Elsewhere(p.entries, todo);
      assert t.versions.left == p.versions.left - todo;
    }
  }

  /** Whatever else a versioned bucket holds: its versions are listed, all but an
      object are deleted, the object is listed too, its version is deleted, and
      then the unversioned delete leaves a marker that nobody lists any more.
      No call fails, and the bucket is "not empty". */
  lemma VersionedPurgeCanFail(s: State, e: Entry) returns (run: seq<Event>, t: State)
    requires Initial(s) && s.versioned && e in s.entries && !e.marker
    ensures Run(s, run) == Some(t)
    ensures t.objects.ObjectsDone? && t.versions.VersionsDone? && t.outcome.NotEmptyError?
  {
    var markers, versions := set d | d in s.entries && d.marker, set d | d in s.entries && !d.marker;
    var page := VersionPage(markers, versions, Some(false), None);
    assert page.Listed() == s.entries == After(s.entries, None);
    run, t := Then(s, [], s, ListVersions(page));
    assert t.versions.left == s.entries;

    var here := set d | d in s.entries && d.Pos() == e.Pos();
    run, t := DeleteListed(s, run, t, s.entries - here);
    OnlyHere(s.entries, e, here);
    var left := t.entries;
    run, t := Then(s, run, t, ListObjects(ObjectPage({e.key}, Some(false), None)));
    run, t := DeleteListed(s, run, t, here);
    assert Elsewhere(left, here) == {} && t.versions.left == {};
    run, t := ObjectDeleteLeavesMarker(s, run, t, e.key);
  }

  /** Once everything away from an object's position is gone, its key is the
      only current one. */
  lemma OnlyHere(entries: set<Entry>, e: Entry, here: set<Entry>)
    requires e in entries && !e.marker && here == set d | d in entries && d.Pos() == e.Pos()
    ensures Elsewhere(entries, entries - here) == here
    ensures FromToken(Current(here), None) == Current(here) == {e.key}
  {
    assert e in here;
    assert forall d :: d in here ==> d.key == e.key && d.rank == e.rank;
    assert e.key in Current(here);
  }

  lemma ObjectDeleteLeavesMarker(s: State, before: seq<Event>, p: State, key: nat) returns (run: seq<Event>, t: State)
    requires Run(s, before) == Some(p) && p.versioned && p.entries == {} && p.outcome.Waiting?
    requires p.objects == DeletingObjects({key}, false, false)
    requires p.versions.DeletingVersions? && p.versions.left == {} && !p.versions.more && !p.versions.bad
    ensures Run(s, run) == Some(t)
    ensures t.objects.ObjectsDone? && t.versions.VersionsDone? && t.outcome.NotEmptyError?
  {
    run, t := Then(s, before, p, EndVersionPage);
    run, t := Then(s, run, t, DeleteObject(key, true));
    assert Entry(key, p.newest, true) in t.entries;
    run, t := Then(s, run, t, EndObjectPage);
    run, t := Then(s, run, t, Finish(true));
  }

  /** A forced deletion can answer "not empty", without any call failing or with,
      exactly for a versioned bucket that holds a version of some object. */
  lemma NotEmptyExactly(s: State)
    requires Initial(s)
    ensures (exists run :: Run(s, run).Some? && Run(s, run).value.outcome.NotEmptyError?) <==>
            s.versioned && exists e :: e in s.entries && !e.marker
  {
    if run :| Run(s, run).Some? && Run(s, run).value.outcome.NotEmptyError? {
      var t := Run(s, run).value;
      if !s.versioned {
        UnversionedPurgeEmpties(s, run, t);
      } else if forall e :: e in s.entries ==> e.marker {
        MarkersReachable(s, run, t);
      }
    }
    if s.versioned && exists e :: e in s.entries && !e.marker {
      var e :| e in s.entries && !e.marker;
      var run, t := VersionedPurgeCanFail(s, e);
    }
  }
}
