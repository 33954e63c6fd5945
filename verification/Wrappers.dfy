// Small shared definitions: optional values, results, and sums over sequences.

module Wrappers {

  /** The message of a Go error. */
  type Error = string

  /** A Go pointer, or an error value, that may be nil. */
  datatype Option<+T> = None | Some(value: T)

  /** The outcome of a call that returns either a value or an error. */
  datatype Result<+T, +E> = Ok(value: T) | Err(error: E)
}

module Sums {

  /** The sum of the weights of the elements of `s`; with 0/1 weights it counts. */
  function Sum<T>(s: seq<T>, weight: T -> nat): nat {
    if s == [] then 0 else weight(s[0]) + Sum(s[1..], weight)
  }

  lemma {:induction false} SumUpdate<T>(s: seq<T>, i: nat, x: T, weight: T -> nat)
    requires i < |s|
    ensures Sum(s[i := x], weight) + weight(s[i]) == Sum(s, weight) + weight(x)
  {
    if i == 0 {
      assert s[i := x][1..] == s[1..];
    } else {
      assert s[i := x][1..] == s[1..][i - 1 := x];
      SumUpdate(s[1..], i - 1, x, weight);
    }
  }

  lemma {:induction false} SumMonotone<T>(s: seq<T>, light: T -> nat, heavy: T -> nat)
    requires forall i :: 0 <= i < |s| ==> light(s[i]) <= heavy(s[i])
    ensures Sum(s, light) <= Sum(s, heavy)
    ensures (exists i :: 0 <= i < |s| && light(s[i]) < heavy(s[i])) ==> Sum(s, light) < Sum(s, heavy)
  {
    if s != [] {
      forall i | 0 <= i < |s[1..]| ensures light(s[1..][i]) <= heavy(s[1..][i]) {
        assert s[1..][i] == s[i + 1];
      }
      SumMonotone(s[1..], light, heavy);
      if i :| 0 <= i < |s| && light(s[i]) < heavy(s[i]) {
        if i > 0 {
          assert s[1..][i - 1] == s[i];
        }
      }
    }
  }
}

module Sets {

  lemma {:induction false} SubsetSize<T>(small: set<T>, large: set<T>)
    requires small <= large
    ensures |small| <= |large|
  {
    if small != {} {
      var x :| x in small;
      SubsetSize(small - {x}, large - {x});
    }
  }

  function Elements<T>(s: seq<T>): set<T> { set x | x in s }

  predicate NoDuplicates<T(==)>(s: seq<T>) {
    forall i, j :: 0 <= i < j < |s| ==> s[i] != s[j]
  }

  /** The pigeonhole: a list has at most as many elements as positions, and as
      many exactly when none occurs twice. */
  lemma {:induction false} Pigeonhole<T>(s: seq<T>)
    ensures |Elements(s)| <= |s|
    ensures |Elements(s)| == |s| <==> NoDuplicates(s)
  {
    if s != [] {
      var rest := s[1..];
      Pigeonhole(rest);
      assert Elements(s) == Elements(rest) + {s[0]};
      assert NoDuplicates(s) <==> NoDuplicates(rest) && s[0] !in rest;
    }
  }
}
