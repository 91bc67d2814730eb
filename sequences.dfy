/** `Array.prototype.filter` and the "last element that satisfies a test"
    that the reconciler reads off a filtered list. */
module Sequences {
  import opened Wrappers

  /** The elements of `s` that satisfy `p`, in their original order. */
  function Filter<T>(s: seq<T>, p: T -> bool): (r: seq<T>)
    ensures |r| <= |s|
    ensures forall i :: 0 <= i < |r| ==> r[i] in s && p(r[i])
    ensures forall i :: 0 <= i < |s| && p(s[i]) ==> s[i] in r
  {
    if s == [] then []
    else (if p(s[0]) then [s[0]] else []) + Filter(s[1..], p)
  }

  /** The last element of a non-empty sequence (`xs[xs.length - 1]`). */
  function Last<T>(s: seq<T>): T
    requires s != []
  {
    s[|s| - 1]
  }

  /** `i` is the greatest position of `s` whose element satisfies `p`. */
  ghost predicate IsLastWhere<T>(s: seq<T>, p: T -> bool, i: int)
  {
    0 <= i < |s| && p(s[i]) && forall j :: i < j < |s| ==> !p(s[j])
  }

  /** The greatest position whose element satisfies `p`, if there is one. */
  function LastWhere<T>(s: seq<T>, p: T -> bool): (r: Option<nat>)
    ensures r.Some? ==> IsLastWhere(s, p, r.value)
    ensures r.None? ==> forall j :: 0 <= j < |s| ==> !p(s[j])
  {
    if s == [] then None
    else if p(s[|s| - 1]) then Some(|s| - 1)
    else LastWhere(s[..|s| - 1], p)
  }

  /** Filtering keeps nothing exactly when no element passes the test. */
  lemma {:induction false} FilterEmpty<T>(s: seq<T>, p: T -> bool)
    ensures Filter(s, p) == [] <==> forall j :: 0 <= j < |s| ==> !p(s[j])
  {
    if s != [] {
      FilterEmpty(s[1..], p);
      assert forall j :: 1 <= j < |s| ==> s[j] == s[1..][j - 1];
    }
  }

  /** The last element of a filtered list is the element at the last
      position that passes the test. */
  lemma {:induction false} FilterLast<T>(s: seq<T>, p: T -> bool, i: nat)
    requires IsLastWhere(s, p, i)
    ensures Filter(s, p) != [] && Last(Filter(s, p)) == s[i]
  {
    if i == 0 {
      FilterEmpty(s[1..], p);
      assert forall j :: 0 <= j < |s[1..]| ==> s[1..][j] == s[j + 1];
      assert Filter(s, p) == [s[0]];
    } else {
      assert IsLastWhere(s[1..], p, i - 1) by {
        assert forall j :: i - 1 < j < |s[1..]| ==> s[1..][j] == s[j + 1];
      }
      FilterLast(s[1..], p, i - 1);
    }
  }

  /** `Filter` and `LastWhere` agree on whether anything passes, and on the
      last element that does. */
  lemma FilterLastWhere<T>(s: seq<T>, p: T -> bool)
    ensures Filter(s, p) == [] <==> LastWhere(s, p).None?
    ensures LastWhere(s, p).Some? ==> Filter(s, p) != [] && Last(Filter(s, p)) == s[LastWhere(s, p).value]
  {
    FilterEmpty(s, p);
    if LastWhere(s, p).Some? {
      FilterLast(s, p, LastWhere(s, p).value);
    }
  }

  /** Filtering twice is filtering once by both tests. */
  lemma {:induction false} FilterTwice<T>(s: seq<T>, p: T -> bool, q: T -> bool, both: T -> bool)
    requires forall x :: both(x) == (p(x) && q(x))
    ensures Filter(Filter(s, p), q) == Filter(s, both)
  {
    if s != [] {
      FilterTwice(s[1..], p, q, both);
      var head := if p(s[0]) then [s[0]] else [];
      assert Filter(s, p) == head + Filter(s[1..], p);
      FilterAppend(head, Filter(s[1..], p), q);
    }
  }

  /** Filtering distributes over concatenation. */
  lemma {:induction false} FilterAppend<T>(a: seq<T>, b: seq<T>, p: T -> bool)
    ensures Filter(a + b, p) == Filter(a, p) + Filter(b, p)
  {
    if a == [] {
      assert a + b == b;
    } else {
      assert (a + b)[1..] == a[1..] + b;
      assert (a + b)[0] == a[0];
      FilterAppend(a[1..], b, p);
      var head := if p(a[0]) then [a[0]] else [];
      calc {
        Filter(a + b, p);
        head + Filter(a[1..] + b, p);
        head + (Filter(a[1..], p) + Filter(b, p));
        (head + Filter(a[1..], p)) + Filter(b, p);
      }
    }
  }
}
