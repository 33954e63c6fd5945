// Emptying a bucket page by page (internal/rgw/bucket.go), each loop on its
// own with the rest of the world interfering between any two of its calls.

module ObjectStore {
  import opened Wrappers

  /** One object version or delete marker.  Keys are numbered in listing order;
      within a key the newest version has the smallest rank and lists first. */
  datatype Entry = Entry(key: nat, rank: int, marker: bool) {
    function Pos(): Position { Position(key, rank) }
  }

  /** A (key, version) pair, as KeyMarker and VersionIdMarker carry it. */
  datatype Position = Position(key: nat, rank: int) {
    predicate Precedes(other: Position) {
      key < other.key || (key == other.key && rank < other.rank)
    }
  }

  /** The entries a version listing from `cursor` still has to show. */
  function After(entries: set<Entry>, cursor: Option<Position>): set<Entry> {
    set e | e in entries && (cursor.Some? ==> cursor.value.Precedes(e.Pos()))
  }

  /** The keys whose newest version is an object, not a delete marker. */
  function Current(entries: set<Entry>): set<nat> {
    set e | e in entries && !e.marker && (forall d :: d in entries && d.key == e.key ==> e.rank <= d.rank) :: e.key
  }

  datatype VersionPage = VersionPage(
    deleteMarkers: set<Entry>,
    versions: set<Entry>,
    isTruncated: Option<bool>,
    next: Option<Position>)
  {
    function Listed(): set<Entry> { deleteMarkers + versions }
    /** The loop goes on unless the page says it was not truncated. */
    predicate GoOn() { !(isTruncated.Some? && !isTruncated.value) }
  }

  /** A page of ListObjectVersions from `cursor`: all that is left, or a
      non-empty first part of it that ends at `next`. */
  ghost predicate IsVersionPage(entries: set<Entry>, cursor: Option<Position>, page: VersionPage) {
    && page.deleteMarkers == (set e | e in page.Listed() && e.marker)
    && page.versions == (set e | e in page.Listed() && !e.marker)
    && page.isTruncated.Some?
    && if page.GoOn()
       then page.next.Some? && (exists e :: e in page.Listed() && e.Pos() == page.next.value)
            && page.Listed() == (set e | e in After(entries, cursor) && !page.next.value.Precedes(e.Pos()))
       else page.Listed() == After(entries, cursor)
  }

  datatype ObjectPage = ObjectPage(contents: set<nat>, isTruncated: Option<bool>, continuationToken: Option<nat>) {
    predicate GoOn() { !(isTruncated.Some? && !isTruncated.value) }
  }

  function FromToken(keys: set<nat>, token: Option<nat>): set<nat> {
    set k | k in keys && (token.Some? ==> token.value < k)
  }

  /** A page of ListObjectsV2: the request's token is echoed, and the page is
      all that is left or a non-empty first part of it. */
  ghost predicate IsObjectPage(entries: set<Entry>, token: Option<nat>, page: ObjectPage) {
    var left := FromToken(Current(entries), token);
    && page.continuationToken == token
    && page.isTruncated.Some?
    && page.contents <= left
    && (if page.GoOn() then page.contents != {} else page.contents == left)
    && (forall j, k :: j in left && k in page.contents && j < k ==> j in page.contents)
  }

  /** What deleting `key` without a version does: an unversioned bucket loses
      the object, a versioned one gains a newest delete marker. */
  function DeleteCurrent(versioned: bool, entries: set<Entry>, newest: int, key: nat): set<Entry> {
    if versioned then entries + {Entry(key, newest, true)}
    else set e | e in entries && e.key != key
  }

  function DeleteVersion(entries: set<Entry>, e: Entry): set<Entry> {
    set d | d in entries && d.Pos() != e.Pos()
  }

  lemma DeleteCurrentHidesKey(versioned: bool, entries: set<Entry>, newest: int, key: nat)
    requires forall e :: e in entries ==> newest < e.rank
    ensures Current(DeleteCurrent(versioned, entries, newest, key)) == Current(entries) - {key}
  {
    var after := DeleteCurrent(versioned, entries, newest, key);
    forall k | k in Current(after) ensures k in Current(entries) - {key} {
      var e :| e in after && !e.marker && e.key == k && forall d :: d in after && d.key == e.key ==> e.rank <= d.rank;
      assert versioned ==> Entry(key, newest, true) in after;
      assert forall d :: d in entries && d.key == e.key ==> d in after;
    }
    forall k | k in Current(entries) - {key} ensures k in Current(after) {
      var e :| e in entries && !e.marker && e.key == k
               && forall d :: d in entries && d.key == e.key ==> e.rank <= d.rank;
      assert e in after;
    }
  }

  lemma {:induction false} Smallest(keys: set<nat>) returns (k: nat)
    requires keys != {}
    ensures k in keys && forall j :: j in keys ==> k <= j
  {
    k :| k in keys;
    if keys - {k} != {} {
      var j := Smallest(keys - {k});
      var first := k;
      if j < k { k := j; }
      forall i | i in keys ensures k <= i {
        assert i == first || i in keys - {first};
      }
    } else {
      assert keys == {k};
    }
  }
}

module ObjectPurge {
  import opened Wrappers
  import opened ObjectStore
  import opened Sets

  /** One bucket on one S3 backend; every call may fail. */
  class S3Bucket {
    const versioned: bool
    var entries: set<Entry>
    var newest: int // below every rank in use
    var failures: nat // calls that failed so far

    ghost predicate Valid()
      reads this
    {
      forall e :: e in entries ==> newest < e.rank
    }

    constructor (versioned: bool)
      ensures Valid() && entries == {} && failures == 0
    {
      this.versioned := versioned;
      entries, newest, failures := {}, 0, 0;
    }

    method ListObjectsV2(token: Option<nat>) returns (r: Result<ObjectPage, Error>)
      modifies this`failures
      ensures r.Ok? ==> IsObjectPage(entries, token, r.value)
      ensures failures == old(failures) + if r.Err? then 1 else 0
    {
      var left := FromToken(Current(entries), token);
      var fails, truncates: bool := *, *;
      if fails {
        failures := failures + 1;
        return Err("unreachable backend");
      } else if left != {} && truncates {
        ghost var least := Smallest(left);
        var k :| k in left && forall j :: j in left ==> k <= j;
        return Ok(ObjectPage({k}, Some(true), token));
      }
      r := Ok(ObjectPage(left, Some(false), token));
    }

    method ListObjectVersions(cursor: Option<Position>) returns (r: Result<VersionPage, Error>)
      modifies this`failures
      ensures r.Ok? ==> IsVersionPage(entries, cursor, r.value)
      ensures failures == old(failures) + if r.Err? then 1 else 0
    {
      var left := After(entries, cursor);
      var fails, truncates: bool := *, *;
      if fails {
        failures := failures + 1;
        return Err("unreachable backend");
      } else if left != {} && truncates {
        var last :| last in left;
        var listed := set e | e in left && !last.Pos().Precedes(e.Pos());
        var page := VersionPage((set e | e in listed && e.marker), (set e | e in listed && !e.marker),
                                Some(true), Some(last.Pos()));
        assert page.Listed() == listed;
        return Ok(page);
      }
      var page := VersionPage((set e | e in left && e.marker), (set e | e in left && !e.marker), Some(false), None);
      assert page.Listed() == left;
      r := Ok(page);
    }

    method DeleteObject(key: nat) returns (err: Option<Error>)
      requires Valid()
      modifies this
      ensures Valid()
      ensures err.Some? ==> entries == old(entries)
      ensures err.None? ==> entries == DeleteCurrent(versioned, old(entries), old(newest), key)
      ensures err.None? ==> Current(entries) == old(Current(entries)) - {key}
      ensures failures == old(failures) + if err.Some? then 1 else 0
    {
      var fails: bool := *;
      if fails {
        failures := failures + 1;
        return Some("unreachable backend");
      }
      DeleteCurrentHidesKey(versioned, entries, newest, key);
      entries := DeleteCurrent(versioned, entries, newest, key);
      newest := newest - 1;
      err := None;
    }

    method DeleteObjectVersion(e: Entry) returns (err: Option<Error>)
      requires Valid()
      modifies this
      ensures Valid()
      ensures entries == if err.None? then DeleteVersion(old(entries), e) else old(entries)
      ensures failures == old(failures) + if err.Some? then 1 else 0
    {
      var fails: bool := *;
      if fails {
        failures := failures + 1;
        return Some("unreachable backend");
      }
      entries := DeleteVersion(entries, e);
      err := None;
    }

    /** Others at work on the bucket, none of them making a key current. */
    method OthersHideKeys()
      requires Valid()
      modifies this
      ensures Valid() && Current(entries) <= old(Current(entries)) && failures == old(failures)
    {
      if * {
        entries := {};
      }
    }

    /** Others at work on the bucket, none of them adding an entry. */
    method OthersRemoveEntries()
      requires Valid()
      modifies this
      ensures Valid() && entries <= old(entries) && failures == old(failures)
    {
      if * {
        entries := {};
      }
    }
  }

  /** The errgroup of one object page: its deletions in any order, with others
      in between; it waits for all of them and reports an error if one failed. */
  method DeleteObjects(b: S3Bucket, keys: set<nat>) returns (failed: Option<Error>)
    requires b.Valid()
    modifies b
    ensures b.Valid() && Current(b.entries) <= old(Current(b.entries))
    ensures failed.None? ==> Current(b.entries) !! keys
    ensures b.failures >= old(b.failures) && (failed.None? <==> b.failures == old(b.failures))
  {
    var todo := keys;
    failed := None;
    while todo != {}
      invariant b.Valid() && todo <= keys
      invariant Current(b.entries) <= old(Current(b.entries))
      invariant failed.None? ==> Current(b.entries) !! keys - todo
      invariant b.failures >= old(b.failures) && (failed.None? <==> b.failures == old(b.failures))
    {
      ghost var before := Current(b.entries);
      var key :| key in todo;
      b.OthersHideKeys();
      var e := b.DeleteObject(key);
      assert Current(b.entries) <= before;
      if e.Some? { failed := e; }
      todo := todo - {key};
    }
  }

  /** The errgroup of one version page, likewise. */
  method DeleteVersions(b: S3Bucket, listed: set<Entry>) returns (failed: Option<Error>)
    requires b.Valid()
    modifies b
    ensures b.Valid() && b.entries <= old(b.entries)
    ensures failed.None? ==> b.entries !! listed
    ensures b.failures >= old(b.failures) && (failed.None? <==> b.failures == old(b.failures))
  {
    var todo := listed;
    failed := None;
    while todo != {}
      invariant b.Valid() && todo <= listed && b.entries <= old(b.entries)
      invariant failed.None? ==> b.entries !! listed - todo
      invariant b.failures >= old(b.failures) && (failed.None? <==> b.failures == old(b.failures))
    {
      var entry :| entry in todo;
      b.OthersRemoveEntries();
      var e := b.DeleteObjectVersion(entry);
      if e.Some? { failed := e; }
      todo := todo - {entry};
    }
  }

  /** The continuation token sent is the one echoed, so every pass lists from
      the start; the loop still ends, since a truncated page shows at least one
      current key and that key is gone before the next pass.  A nil result
      means no current object is left, and comes exactly if no call failed. */
  method DeleteBucketObjects(b: S3Bucket) returns (err: Option<Error>)
    requires b.Valid()
    modifies b
    ensures b.Valid()
    ensures Current(b.entries) <= old(Current(b.entries))
    ensures err.None? ==> Current(b.entries) == {}
    ensures b.failures >= old(b.failures) && (err.None? <==> b.failures == old(b.failures))
  {
    var token: Option<nat> := None;
    var more := true;
    while more
      invariant b.Valid() && token.None?
      invariant Current(b.entries) <= old(Current(b.entries))
      invariant !more ==> Current(b.entries) == {}
      invariant b.failures == old(b.failures)
      decreases more, |Current(b.entries)|
    {
      more, token, err := ObjectPass(b, token);
      if err.Some? { return; }
    }
    err := None;
  }

  /** One iteration of that loop. */
  method ObjectPass(b: S3Bucket, token: Option<nat>)
    returns (more: bool, nextToken: Option<nat>, err: Option<Error>)
    requires b.Valid() && token.None?
    modifies b
    ensures b.Valid() && nextToken == token
    ensures Current(b.entries) <= old(Current(b.entries))
    ensures err.None? && !more ==> Current(b.entries) == {}
    ensures err.None? && more ==> |Current(b.entries)| < |old(Current(b.entries))|
    ensures b.failures >= old(b.failures) && (err.None? <==> b.failures == old(b.failures))
  {
    b.OthersHideKeys();
    more, nextToken := false, token;
    ghost var listing := Current(b.entries);
    var r := b.ListObjectsV2(token);
    if r.Err? { return false, token, Some(r.error); }
    var page := r.value;
    assert page.contents <= listing && (!page.GoOn() ==> page.contents == listing);

    var failed := DeleteObjects(b, page.contents);
    if failed.Some? { return false, token, failed; }

    more, nextToken, err := page.GoOn(), page.continuationToken, None;
    if more {
      ghost var k :| k in page.contents;
      SmallerSubset(Current(b.entries), old(Current(b.entries)), k);
    }
  }

  lemma SmallerSubset(small: set<nat>, large: set<nat>, k: nat)
    requires small <= large && k in large && k !in small
    ensures |small| < |large|
  {
    assert small <= large - {k};
    SubsetSize(small, large - {k});
  }

  /** Nothing at or before the cursor remains, whatever others remove meanwhile;
      the loop ends because a truncated page moves the cursor past an entry;
      a nil result means no version and no delete marker is left, and comes
      exactly if no call failed. */
  method DeleteBucketObjectVersions(b: S3Bucket) returns (err: Option<Error>)
    requires b.Valid()
    modifies b
    ensures b.Valid()
    ensures b.entries <= old(b.entries)
    ensures err.None? ==> b.entries == {}
    ensures b.failures >= old(b.failures) && (err.None? <==> b.failures == old(b.failures))
  {
    var cursor: Option<Position> := None;
    var more := true;
    while more
      invariant b.Valid() && b.entries <= old(b.entries)
      invariant b.entries == After(b.entries, cursor)
      invariant !more ==> b.entries == {}
      invariant b.failures == old(b.failures)
      decreases more, |After(b.entries, cursor)|
    {
      ghost var atStart := After(b.entries, cursor);
      b.OthersRemoveEntries();
      ghost var listing := b.entries;
      assert listing == After(listing, cursor);
      var r := b.ListObjectVersions(cursor);
      if r.Err? { return Some(r.error); }
      var page := r.value;

      var failed := DeleteVersions(b, page.deleteMarkers + page.versions);
      if failed.Some? { return failed; }

      more := page.GoOn();
      if more {
        ghost var last :| last in page.Listed() && last.Pos() == page.next.value;
        cursor := page.next;
        assert After(b.entries, cursor) <= atStart - {last};
        SubsetSize(After(b.entries, cursor), atStart - {last});
      }
    }
    err := None;
  }
}
