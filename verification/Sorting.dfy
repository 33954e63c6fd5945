// Strings in Go's order, and stable sorting by a string key.

module Strings {

  /** Go's < on strings: lexicographic by element. */
  predicate Less(a: string, b: string) {
    b != [] && (a == [] || a[0] < b[0] || (a[0] == b[0] && Less(a[1..], b[1..])))
  }

  /** The strings agree on `k` elements, and then `a` ends or goes on smaller. */
  predicate LessAt(a: string, b: string, k: int) {
    0 <= k <= |a| && k < |b| && a[..k] == b[..k] && (k == |a| || a[k] < b[k])
  }

  lemma LessAtTail(a: string, b: string, k: nat)
    requires a != [] && b != [] && a[0] == b[0]
    ensures LessAt(a, b, k + 1) <==> LessAt(a[1..], b[1..], k)
  {
    if k <= |a[1..]| && k < |b[1..]| {
      assert a[..k + 1] == [a[0]] + a[1..][..k] && b[..k + 1] == [b[0]] + b[1..][..k];
      assert a[1..][..k] == a[..k + 1][1..] && b[1..][..k] == b[..k + 1][1..];
    }
  }

  lemma LessAtHead(a: string, b: string, k: int)
    requires LessAt(a, b, k)
    ensures k == 0 || (a != [] && a[0] == b[0])
  {
    if k > 0 { assert a[0] == a[..k][0] == b[..k][0] == b[0]; }
  }

  /** One string is less than another exactly if it is a proper prefix of it, or
      smaller where they first differ. */
  lemma {:induction false} LessExactly(a: string, b: string)
    ensures Less(a, b) <==> exists k :: LessAt(a, b, k)
  {
    if k :| LessAt(a, b, k) { LessAtHead(a, b, k); }
    if a != [] && b != [] && a[0] == b[0] {
      LessExactly(a[1..], b[1..]);
      if k :| LessAt(a[1..], b[1..], k) { LessAtTail(a, b, k); }
      if k :| LessAt(a, b, k) && k > 0 { LessAtTail(a, b, k - 1); }
    } else if Less(a, b) {
      assert LessAt(a, b, 0);
    }
  }

  lemma {:induction false} LessTotal(a: string, b: string)
    ensures Less(a, b) || Less(b, a) || a == b
    ensures !(Less(a, b) && Less(b, a))
    ensures !Less(a, a)
  {
    if a != [] { LessTotal(a[1..], a[1..]); }
    if a != [] && b != [] {
      LessTotal(a[1..], b[1..]);
      if a[0] == b[0] && a[1..] == b[1..] { assert a == [a[0]] + a[1..] == b; }
    }
  }

  lemma {:induction false} LessTransitive(a: string, b: string, c: string)
    requires Less(a, b) && Less(b, c)
    ensures Less(a, c)
  {
    if a != [] && a[0] == b[0] == c[0] { LessTransitive(a[1..], b[1..], c[1..]); }
  }

  function Join(parts: seq<string>, separator: string): string {
    if parts == [] then ""
    else if |parts| == 1 then parts[0]
    else parts[0] + separator + Join(parts[1..], separator)
  }
}

module Sorting {
  import opened Strings
  import opened Sets

  /** Stable insertion: `t` goes before the first item with a key not below its own. */
  function Insert<T>(key: T -> string, t: T, sorted: seq<T>): (r: seq<T>)
    ensures multiset(r) == multiset{t} + multiset(sorted)
  {
    if sorted == [] then [t]
    else if Less(key(sorted[0]), key(t)) then
      assert sorted == [sorted[0]] + sorted[1..];
      [sorted[0]] + Insert(key, t, sorted[1..])
    else [t] + sorted
  }

  /** sort.SliceStable on a copy, by key only. */
  function Sort<T>(key: T -> string, items: seq<T>): (r: seq<T>)
    ensures multiset(r) == multiset(items)
  {
    if items == [] then []
    else
      assert items == [items[0]] + items[1..];
      Insert(key, items[0], Sort(key, items[1..]))
  }

  predicate Sorted<T>(key: T -> string, items: seq<T>) {
    forall i, j :: 0 <= i < j < |items| ==> !Less(key(items[j]), key(items[i]))
  }

  /** The items with a given key, in order: what stability preserves. */
  function WithKey<T>(key: T -> string, items: seq<T>, k: string): seq<T> {
    if items == [] then []
    else (if key(items[0]) == k then [items[0]] else []) + WithKey(key, items[1..], k)
  }

  lemma {:induction false} InsertSorted<T>(key: T -> string, t: T, sorted: seq<T>)
    requires Sorted(key, sorted)
    ensures Sorted(key, Insert(key, t, sorted))
  {
    if sorted != [] {
      var r := Insert(key, t, sorted);
      LessTotal(key(t), key(sorted[0]));
      if Less(key(sorted[0]), key(t)) {
        InsertSorted(key, t, sorted[1..]);
        forall j | 0 < j < |r| ensures !Less(key(r[j]), key(r[0])) {
          assert r[j] in multiset(r[1..]);
          assert r[1..] == Insert(key, t, sorted[1..]);
          if r[j] != t {
            assert r[j] in multiset(sorted[1..]);
            var i :| 0 <= i < |sorted[1..]| && sorted[1..][i] == r[j];
            assert sorted[i + 1] == r[j];
          }
        }
      } else {
        forall j | 0 < j < |r| ensures !Less(key(r[j]), key(t)) {
          assert r[j] == sorted[j - 1];
          if Less(key(r[j]), key(t)) {
            LessTotal(key(sorted[0]), key(r[j]));
            if key(sorted[0]) != key(r[j]) { LessTransitive(key(sorted[0]), key(r[j]), key(t)); }
          }
        }
      }
    }
  }

  lemma WithKeyCons<T>(key: T -> string, t: T, items: seq<T>, k: string)
    ensures WithKey(key, [t] + items, k) == (if key(t) == k then [t] else []) + WithKey(key, items, k)
  {
    assert ([t] + items)[1..] == items;
  }

  lemma WithKeySwap<T>(key: T -> string, s: T, t: T, rest: seq<T>, k: string)
    requires key(s) != key(t)
    ensures WithKey(key, [s] + ([t] + rest), k) == WithKey(key, [t] + ([s] + rest), k)
  {
    WithKeyCons(key, s, [t] + rest, k);
    WithKeyCons(key, t, rest, k);
    WithKeyCons(key, t, [s] + rest, k);
    WithKeyCons(key, s, rest, k);
  }

  lemma {:induction false} InsertWithKey<T>(key: T -> string, t: T, sorted: seq<T>, k: string)
    ensures WithKey(key, Insert(key, t, sorted), k) == WithKey(key, [t] + sorted, k)
  {
    if sorted != [] && Less(key(sorted[0]), key(t)) {
      var s, rest := sorted[0], sorted[1..];
      LessTotal(key(s), key(t));
      InsertWithKey(key, t, rest, k);
      calc {
        WithKey(key, Insert(key, t, sorted), k);
        WithKey(key, [s] + Insert(key, t, rest), k);
        { WithKeyCons(key, s, Insert(key, t, rest), k); WithKeyCons(key, s, [t] + rest, k); }
        WithKey(key, [s] + ([t] + rest), k);
        { WithKeySwap(key, s, t, rest, k); }
        WithKey(key, [t] + ([s] + rest), k);
        { assert sorted == [s] + rest; }
        WithKey(key, [t] + sorted, k);
      }
    }
  }

  /** The result is sorted, is a permutation (its own contract), and keeps items
      with equal keys in their order. */
  lemma {:induction false} SortStable<T>(key: T -> string, items: seq<T>, k: string)
    ensures Sorted(key, Sort(key, items))
    ensures WithKey(key, Sort(key, items), k) == WithKey(key, items, k)
  {
    if items != [] {
      SortStable(key, items[1..], k);
      InsertSorted(key, items[0], Sort(key, items[1..]));
      InsertWithKey(key, items[0], Sort(key, items[1..]), k);
      assert ([items[0]] + Sort(key, items[1..]))[1..] == Sort(key, items[1..]);
    }
  }

  /** Tags with the same key are the same tag (in particular: distinct keys). */
  predicate KeyDetermines<T(==)>(key: T -> string, items: seq<T>) {
    forall i, j :: 0 <= i < |items| && 0 <= j < |items| && key(items[i]) == key(items[j]) ==> items[i] == items[j]
  }

  lemma SortedHead<T>(key: T -> string, a: seq<T>, b: seq<T>)
    requires a != [] && b != [] && Sorted(key, a) && Sorted(key, b) && KeyDetermines(key, a)
    requires a[0] in b && b[0] in a
    ensures a[0] == b[0]
  {
    var i :| 0 <= i < |b| && b[i] == a[0];
    var j :| 0 <= j < |a| && a[j] == b[0];
    LessTotal(key(a[0]), key(b[0]));
  }

  lemma {:induction false} SortedUnique<T>(key: T -> string, a: seq<T>, b: seq<T>)
    requires Sorted(key, a) && Sorted(key, b) && multiset(a) == multiset(b) && KeyDetermines(key, a)
    ensures a == b
  {
    assert |multiset(a)| == |a| && |multiset(b)| == |b|;
    if a != [] {
      assert a[0] in multiset(b) && b[0] in multiset(a);
      SortedHead(key, a, b);
      TailMultiset(a, b);
      SortedUnique(key, a[1..], b[1..]);
      assert a == [a[0]] + a[1..] == b;
    }
  }

  lemma TailMultiset<T>(a: seq<T>, b: seq<T>)
    requires a != [] && b != [] && a[0] == b[0] && multiset(a) == multiset(b)
    ensures multiset(a[1..]) == multiset(b[1..])
  {
    assert a == [a[0]] + a[1..] && b == [b[0]] + b[1..];
    assert multiset(a[1..]) == multiset(a) - multiset{a[0]};
    assert multiset(b[1..]) == multiset(b) - multiset{b[0]};
  }

  /** Every reordering of the items sorts to the same list. */
  ghost predicate ReorderingsAgree<T(!new)>(key: T -> string, items: seq<T>) {
    forall p: seq<T> :: multiset(p) == multiset(items) ==> Sort(key, p) == Sort(key, items)
  }

  /** Sorting is a canonical form for reorderings exactly when items with equal
      keys are equal; it is idempotent in any case. */
  lemma SortCanonical<T(!new)>(key: T -> string, items: seq<T>)
    ensures Sort(key, Sort(key, items)) == Sort(key, items)
    ensures KeyDetermines(key, items) <==> ReorderingsAgree(key, items)
  {
    SortStable(key, items, "");
    AlreadySorted(key, Sort(key, items));
    if KeyDetermines(key, items) {
      forall p: seq<T> | multiset(p) == multiset(items) ensures Sort(key, p) == Sort(key, items) {
        ReorderingsSortAlike(key, items, p);
      }
    } else {
      var p, q := DifferentlySorted(key, items);
    }
  }

  lemma ReorderingsSortAlike<T>(key: T -> string, items: seq<T>, p: seq<T>)
    requires KeyDetermines(key, items) && multiset(p) == multiset(items)
    ensures Sort(key, p) == Sort(key, items)
  {
    SortStable(key, p, "");
    SortStable(key, items, "");
    var a := Sort(key, items);
    forall i, j | 0 <= i < |a| && 0 <= j < |a| && key(a[i]) == key(a[j]) ensures a[i] == a[j] {
      assert a[i] in multiset(a) && a[j] in multiset(a);
      assert a[i] in items && a[j] in items;
    }
    SortedUnique(key, Sort(key, items), Sort(key, p));
  }

  lemma {:induction false} AlreadySorted<T>(key: T -> string, items: seq<T>)
    requires Sorted(key, items)
    ensures Sort(key, items) == items
  {
    if items != [] {
      AlreadySorted(key, items[1..]);
      assert |items| > 1 ==> items[1..][0] == items[1];
    }
  }

  lemma DifferentlySorted<T>(key: T -> string, items: seq<T>) returns (p: seq<T>, q: seq<T>)
    requires !KeyDetermines(key, items)
    ensures multiset(p) == multiset(items) == multiset(q)
    ensures Sort(key, p) != Sort(key, q)
  {
    var i, j :| 0 <= i < |items| && 0 <= j < |items| && key(items[i]) == key(items[j]) && items[i] != items[j];
    p := ToFront(items, i);
    q := ToFront(items, j);
    SortStable(key, p, key(items[i]));
    SortStable(key, q, key(items[i]));
    assert WithKey(key, p, key(items[i]))[0] == items[i] && WithKey(key, q, key(items[i]))[0] == items[j];
  }

  lemma ToFront<T>(items: seq<T>, i: nat) returns (p: seq<T>)
    requires i < |items|
    ensures p != [] && p[0] == items[i] && multiset(p) == multiset(items)
  {
    p := [items[i]] + items[..i] + items[i + 1..];
    assert items == items[..i] + [items[i]] + items[i + 1..];
  }

  // --- sorting names ------------------------------------------------------------

  function Self(s: string): string { s }

  /** The list of the names in increasing order. */
  ghost predicate IsSortedListing(list: seq<string>, names: set<string>) {
    Sorted(Self, list) && NoDuplicates(list) && Elements(list) == names
  }

  /** There is only one sorted listing of a set. */
  lemma {:induction false} SortedListingUnique(a: seq<string>, b: seq<string>, names: set<string>)
    requires IsSortedListing(a, names) && IsSortedListing(b, names)
    ensures a == b
  {
    assert a != [] ==> a[0] in Elements(a);
    assert b != [] ==> b[0] in Elements(b);
    if a != [] && b != [] {
      assert a[0] in Elements(b) && b[0] in Elements(a);
      SortedHead(Self, a, b);
      assert Elements(a[1..]) == names - {a[0]} == Elements(b[1..]);
      SortedListingUnique(a[1..], b[1..], names - {a[0]});
      assert a == [a[0]] + a[1..] == b;
    }
  }

  /** Sorting any duplicate-free list of the names gives that listing. */
  lemma SortListing(names: seq<string>)
    requires NoDuplicates(names)
    ensures IsSortedListing(Sort(Self, names), Elements(names))
  {
    var sorted := Sort(Self, names);
    SortStable(Self, names, "");
    assert forall n :: n in sorted <==> n in multiset(sorted);
    assert forall n :: n in names <==> n in multiset(names);
    Pigeonhole(names);
    assert Elements(sorted) == Elements(names);
    assert |multiset(sorted)| == |sorted| && |multiset(names)| == |names|;
    Pigeonhole(sorted);
  }
}
