/** The optional value used for lookups that may find nothing and for
    fields that an observation may lack. */
module Wrappers {
  datatype Option<+T> = None | Some(value: T)
}

/** Searching and filtering sequences of rows: the two shapes every query
    of the system takes (a point lookup that fetches one row, and a
    WHERE clause that keeps the rows satisfying a condition). */
module Seqs {
  import opened Wrappers

  /** Index of the first element of `s` satisfying `p`, or None. */
  function Find<T>(s: seq<T>, p: T -> bool): (r: Option<nat>)
    ensures r.Some? ==> r.value < |s| && p(s[r.value])
    ensures r.Some? ==> forall j :: 0 <= j < r.value ==> !p(s[j])
    ensures r.None? <==> forall j :: 0 <= j < |s| ==> !p(s[j])
  {
    if |s| == 0 then None
    else if p(s[0]) then Some(0)
    else match Find(s[1..], p)
      case None => None
      case Some(k) => Some(k + 1)
  }

  /** How many elements of `s` satisfy `p` (a SELECT COUNT(*) ... WHERE). */
  function Count<T>(s: seq<T>, p: T -> bool): (n: nat)
    ensures n <= |s|
    ensures n == 0 <==> forall j :: 0 <= j < |s| ==> !p(s[j])
    ensures forall k :: 0 <= k < |s| && p(s[k]) && (forall j :: 0 <= j < |s| && j != k ==> !p(s[j])) ==> n == 1
  {
    if |s| == 0 then 0
    else (if p(s[0]) then 1 else 0) + Count(s[1..], p)
  }

  /** The elements of `s` satisfying `p`, in their original order. */
  function Filter<T(!new)>(s: seq<T>, p: T -> bool): (r: seq<T>)
    ensures |r| <= |s|
    ensures forall x :: x in r <==> x in s && p(x)
    ensures forall x :: multiset(r)[x] == if p(x) then multiset(s)[x] else 0
  {
    if |s| == 0 then []
    else
      assert s == [s[0]] + s[1..];
      (if p(s[0]) then [s[0]] else []) + Filter(s[1..], p)
  }

  /** A stronger condition keeps no more elements than a weaker one. */
  lemma {:induction false} FilterShrinks<T(!new)>(s: seq<T>, p: T -> bool, q: T -> bool)
    requires forall x :: q(x) ==> p(x)
    ensures |Filter(s, q)| <= |Filter(s, p)|
    ensures forall x :: x in Filter(s, q) ==> x in Filter(s, p)
  {
    if |s| > 0 {
      FilterShrinks(s[1..], p, q);
    }
  }

  /** Two conditions that agree on every element keep the same elements. */
  lemma {:induction false} FilterSame<T(!new)>(s: seq<T>, p: T -> bool, q: T -> bool)
    requires forall x :: p(x) == q(x)
    ensures Filter(s, p) == Filter(s, q)
  {
    if |s| > 0 {
      FilterSame(s[1..], p, q);
    }
  }

  /** Two conditions that agree on every element find the same index. */
  lemma {:induction false} FindSame<T(!new)>(s: seq<T>, p: T -> bool, q: T -> bool)
    requires forall x :: p(x) == q(x)
    ensures Find(s, p) == Find(s, q)
  {
    if |s| > 0 {
      FindSame(s[1..], p, q);
    }
  }

  /** Searching on past the first match finds a second match exactly when
      there are two; when it finds none, the first match is the only one. */
  lemma FindAhead<T>(s: seq<T>, p: T -> bool, k: nat, ahead: Option<nat>)
    requires Find(s, p) == Some(k)
    requires k < |s| && ahead == Find(s[k + 1..], p)
    ensures ahead.Some? <==> exists i, j :: 0 <= i < j < |s| && p(s[i]) && p(s[j])
    ensures ahead.None? ==> forall j :: 0 <= j < |s| && p(s[j]) ==> j == k
  {
    var rest := s[k + 1..];
    assert forall j :: k < j < |s| ==> rest[j - k - 1] == s[j];
    if ahead.Some? {
      assert p(s[k]) && p(s[k + 1 + ahead.value]);
    }
  }

  /** A condition that every element satisfies keeps the whole sequence. */
  lemma {:induction false} FilterKeepsAll<T(!new)>(s: seq<T>, p: T -> bool)
    requires forall i :: 0 <= i < |s| ==> p(s[i])
    ensures Filter(s, p) == s
  {
    if |s| > 0 {
      FilterKeepsAll(s[1..], p);
    }
  }
}
