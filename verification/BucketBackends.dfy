// The table one reconcile run keeps of every backend's conditions
// (internal/controller/bucket/bucket_backends.go).

module BackendTable {
  import opened Wrappers
  import opened Api

  /** One atomic change of the table, made under its mutex. */
  datatype Write =
    | SetBucket(c: Condition)
    | SetLifecycle(lc: Option<Condition>)
    | SetVersioning(vc: Option<Condition>)
    | SetObjectLock(oc: Option<Condition>)
    | DeleteBackend

  function InfoOf(b: Backends, name: string): BackendInfo {
    if name in b then b[name] else EMPTY_INFO
  }

  function Apply(b: Backends, name: string, w: Write): Backends {
    match w
    case SetBucket(c) => b[name := InfoOf(b, name).(bucket := c)]
    case SetLifecycle(c) => b[name := InfoOf(b, name).(lifecycle := c)]
    case SetVersioning(c) => b[name := InfoOf(b, name).(versioning := c)]
    case SetObjectLock(c) => b[name := InfoOf(b, name).(objectLock := c)]
    case DeleteBackend => b - {name}
  }

  function ApplyAll(b: Backends, name: string, ws: seq<Write>): Backends
    decreases ws
  {
    if ws == [] then b else ApplyAll(Apply(b, name, ws[0]), name, ws[1..])
  }

  /** The entry of one backend, if it has one. */
  function Entry(b: Backends, name: string): Option<BackendInfo> {
    if name in b then Some(b[name]) else None
  }

  /** What writes make of one backend's entry. */
  function Replay(entry: Option<BackendInfo>, ws: seq<Write>): Option<BackendInfo>
    decreases ws
  {
    if ws == [] then entry else Replay(ReplayOne(entry, ws[0]), ws[1..])
  }

  function ReplayOne(entry: Option<BackendInfo>, w: Write): Option<BackendInfo> {
    var info := if entry.Some? then entry.value else EMPTY_INFO;
    match w
    case SetBucket(c) => Some(info.(bucket := c))
    case SetLifecycle(c) => Some(info.(lifecycle := c))
    case SetVersioning(c) => Some(info.(versioning := c))
    case SetObjectLock(c) => Some(info.(objectLock := c))
    case DeleteBackend => None
  }

  /** A write for one backend changes its entry and leaves all others alone. */
  lemma ApplyEntry(b: Backends, name: string, w: Write, other: string)
    ensures Entry(Apply(b, name, w), other) ==
            if other == name then ReplayOne(Entry(b, name), w) else Entry(b, other)
  {
  }

  lemma {:induction false} ApplyAllEntry(b: Backends, name: string, ws: seq<Write>, other: string)
    ensures Entry(ApplyAll(b, name, ws), other) ==
            if other == name then Replay(Entry(b, name), ws) else Entry(b, other)
    decreases ws
  {
    if ws != [] {
      ApplyEntry(b, name, ws[0], name);
      ApplyEntry(b, name, ws[0], other);
      ApplyAllEntry(Apply(b, name, ws[0]), name, ws[1..], other);
    }
  }

  lemma {:induction false} ReplayAppend(entry: Option<BackendInfo>, ws: seq<Write>, w: Write)
    ensures Replay(entry, ws + [w]) == ReplayOne(Replay(entry, ws), w)
    decreases ws
  {
    if ws == [] {
      assert ws + [w] == [w];
    } else {
      assert (ws + [w])[1..] == ws[1..] + [w];
      ReplayAppend(ReplayOne(entry, ws[0]), ws[1..], w);
    }
  }

  lemma {:induction false} ReplayConcat(entry: Option<BackendInfo>, v: seq<Write>, w: seq<Write>)
    ensures Replay(entry, v + w) == Replay(Replay(entry, v), w)
    decreases v
  {
    if v == [] {
      assert v + w == w;
    } else {
      assert (v + w)[1..] == v[1..] + w;
      ReplayConcat(ReplayOne(entry, v[0]), v[1..], w);
    }
  }

  lemma {:induction false} ApplyAllConcat(b: Backends, n: string, v: seq<Write>, w: seq<Write>)
    ensures ApplyAll(b, n, v + w) == ApplyAll(ApplyAll(b, n, v), n, w)
    decreases v
  {
    if v == [] {
      assert v + w == w;
    } else {
      assert (v + w)[1..] == v[1..] + w;
      ApplyAllConcat(Apply(b, n, v[0]), n, v[1..], w);
    }
  }
}

module SharedTable {
  import opened Wrappers
  import opened Api
  import opened BackendTable

  type Table = map<string, Backends>

  function BackendsOf(t: Table, bucketName: string): Backends {
    if bucketName in t then t[bucketName] else map[]
  }

  /** The bucket is recorded as Available on the backend, which has a client. */
  predicate AvailableOn(b: Backends, clients: set<string>, name: string) {
    name in clients && name in b && b[name].bucket == AVAILABLE
  }

  class BucketBackends {
    var backends: Table

    constructor ()
      ensures backends == map[]
    {
      backends := map[];
    }

    function Of(bucketName: string): Backends
      reads this
    {
      BackendsOf(backends, bucketName)
    }

    /** The shape common to the setters: make the entry if it is missing, then
        change it in place.  `deleteBackend` of a missing entry does nothing. */
    method Change(bucketName: string, backendName: string, w: Write)
      requires !w.DeleteBackend?
      modifies this
      ensures Of(bucketName) == Apply(old(Of(bucketName)), backendName, w)
      ensures forall b :: b != bucketName ==> Of(b) == old(Of(b))
    {
      if bucketName !in backends {
        backends := backends[bucketName := map[]];
      }
      if backendName !in backends[bucketName] {
        backends := backends[bucketName := backends[bucketName][backendName := EMPTY_INFO]];
      }
      var info := backends[bucketName][backendName];
      match w {
        case SetBucket(c) => info := info.(bucket := c);
        case SetLifecycle(c) => info := info.(lifecycle := c);
        case SetVersioning(c) => info := info.(versioning := c);
        case SetObjectLock(c) => info := info.(objectLock := c);
      }
      backends := backends[bucketName := backends[bucketName][backendName := info]];
      assert Of(bucketName) == old(Of(bucketName))[backendName := info];
    }

    method SetBucketCondition(bucketName: string, backendName: string, c: Condition)
      modifies this
      ensures Of(bucketName) == Apply(old(Of(bucketName)), backendName, SetBucket(c))
      ensures forall b :: b != bucketName ==> Of(b) == old(Of(b))
    {
      Change(bucketName, backendName, SetBucket(c));
    }

    method SetLifecycleConfigCondition(bucketName: string, backendName: string, c: Option<Condition>)
      modifies this
      ensures Of(bucketName) == Apply(old(Of(bucketName)), backendName, SetLifecycle(c))
      ensures forall b :: b != bucketName ==> Of(b) == old(Of(b))
    {
      Change(bucketName, backendName, SetLifecycle(c));
    }

    method SetVersioningConfigCondition(bucketName: string, backendName: string, c: Option<Condition>)
      modifies this
      ensures Of(bucketName) == Apply(old(Of(bucketName)), backendName, SetVersioning(c))
      ensures forall b :: b != bucketName ==> Of(b) == old(Of(b))
    {
      Change(bucketName, backendName, SetVersioning(c));
    }

    method SetObjectLockConfigCondition(bucketName: string, backendName: string, c: Option<Condition>)
      modifies this
      ensures Of(bucketName) == Apply(old(Of(bucketName)), backendName, SetObjectLock(c))
      ensures forall b :: b != bucketName ==> Of(b) == old(Of(b))
    {
      Change(bucketName, backendName, SetObjectLock(c));
    }

    method RemoveBackend(bucketName: string, backendName: string)
      modifies this
      ensures Of(bucketName) == Apply(old(Of(bucketName)), backendName, DeleteBackend)
      ensures forall b :: b != bucketName ==> Of(b) == old(Of(b))
    {
      if bucketName !in backends { return; }
      backends := backends[bucketName := backends[bucketName] - {backendName}];
    }

    /** The entries of the listed backends, collected one table entry at a time
        in whatever order the map yields them. */
    method GetBackends(bucketName: string, beNames: seq<string>) returns (be: Backends)
      ensures be.Keys == Of(bucketName).Keys * (set n | n in beNames)
      ensures forall n :: n in be ==> be[n] == Of(bucketName)[n]
    {
      var requested := set n | n in beNames;
      be := map[];
      var todo := Of(bucketName).Keys;
      while todo != {}
        invariant todo <= Of(bucketName).Keys
        invariant be.Keys == (Of(bucketName).Keys - todo) * requested
        invariant forall n :: n in be ==> be[n] == Of(bucketName)[n]
      {
        var k :| k in todo;
        todo := todo - {k};
        if k in requested { be := be[k := Of(bucketName)[k]]; }
      }
    }

    /** Counts list positions, so a name listed twice counts twice. */
    method CountBucketsAvailableOnBackends(bucketName: string, names: seq<string>, clients: set<string>)
      returns (count: nat)
      ensures count == |set i | 0 <= i < |names| && AvailableOn(Of(bucketName), clients, names[i])|
      ensures count >= |names| <==> forall n :: n in names ==> AvailableOn(Of(bucketName), clients, n)
    {
      count := 0;
      ghost var hits: set<int> := {};
      for i := 0 to |names|
        invariant hits == set j | 0 <= j < i && AvailableOn(Of(bucketName), clients, names[j])
        invariant count == |hits| <= i
        invariant count == i <==> forall j :: 0 <= j < i ==> AvailableOn(Of(bucketName), clients, names[j])
      {
        if names[i] !in clients { continue; }
        if names[i] !in Of(bucketName) { continue; }
        if Of(bucketName)[names[i]].bucket != AVAILABLE { continue; }
        count := count + 1;
        hits := hits + {i};
      }
    }

    method IsLifecycleConfigAvailableOnBackends(bucketName: string, names: seq<string>, clients: set<string>)
      returns (ok: bool)
      ensures ok <==> forall n :: n in names && n in clients ==> InfoOf(Of(bucketName), n).lifecycle == Some(AVAILABLE)
    {
      for i := 0 to |names|
        invariant forall j :: 0 <= j < i && names[j] in clients ==>
                  InfoOf(Of(bucketName), names[j]).lifecycle == Some(AVAILABLE)
      {
        if names[i] !in clients { continue; }
        if InfoOf(Of(bucketName), names[i]).lifecycle != Some(AVAILABLE) { return false; }
      }
      return true;
    }

    method IsLifecycleConfigRemovedFromBackends(bucketName: string, names: seq<string>, clients: set<string>)
      returns (ok: bool)
      ensures ok <==> forall n :: n in names && n in clients ==> InfoOf(Of(bucketName), n).lifecycle == None
    {
      for i := 0 to |names|
        invariant forall j :: 0 <= j < i && names[j] in clients ==> InfoOf(Of(bucketName), names[j]).lifecycle == None
      {
        if names[i] !in clients { continue; }
        if InfoOf(Of(bucketName), names[i]).lifecycle != None { return false; }
      }
      return true;
    }

    method IsVersioningConfigAvailableOnBackends(bucketName: string, names: seq<string>, clients: set<string>)
      returns (ok: bool)
      ensures ok <==> forall n :: n in names && n in clients ==> InfoOf(Of(bucketName), n).versioning == Some(AVAILABLE)
    {
      for i := 0 to |names|
        invariant forall j :: 0 <= j < i && names[j] in clients ==>
                  InfoOf(Of(bucketName), names[j]).versioning == Some(AVAILABLE)
      {
        if names[i] !in clients { continue; }
        if InfoOf(Of(bucketName), names[i]).versioning != Some(AVAILABLE) { return false; }
      }
      return true;
    }

    method IsVersioningConfigRemovedFromBackends(bucketName: string, names: seq<string>, clients: set<string>)
      returns (ok: bool)
      ensures ok <==> forall n :: n in names && n in clients ==> InfoOf(Of(bucketName), n).versioning == None
    {
      for i := 0 to |names|
        invariant forall j :: 0 <= j < i && names[j] in clients ==> InfoOf(Of(bucketName), names[j]).versioning == None
      {
        if names[i] !in clients { continue; }
        if InfoOf(Of(bucketName), names[i]).versioning != None { return false; }
      }
      return true;
    }

    method IsObjectLockConfigAvailableOnBackends(bucketName: string, names: seq<string>, clients: set<string>)
      returns (ok: bool)
      ensures ok <==> forall n :: n in names && n in clients ==> InfoOf(Of(bucketName), n).objectLock == Some(AVAILABLE)
    {
      for i := 0 to |names|
        invariant forall j :: 0 <= j < i && names[j] in clients ==>
                  InfoOf(Of(bucketName), names[j]).objectLock == Some(AVAILABLE)
      {
        if names[i] !in clients { continue; }
        if InfoOf(Of(bucketName), names[i]).objectLock != Some(AVAILABLE) { return false; }
      }
      return true;
    }
  }
}
