/** Generic sequence helpers shared by the catalog, the product grid and the
    admin panel: the order-preserving filter that `Array.prototype.filter`
    performs, the first-match search that `Array.prototype.find` performs,
    and the subsequence relation used to state that a filter keeps order. */
module Sequences {

  /** The elements of `s` that satisfy `keep`, in their original order. */
  function Select<T>(s: seq<T>, keep: T -> bool): (r: seq<T>)
    ensures |r| <= |s|
    ensures forall x | x in r :: x in s && keep(x)
    decreases |s|
  {
    if s == [] then []
    else if keep(s[0]) then [s[0]] + Select(s[1..], keep)
    else Select(s[1..], keep)
  }

  /** `a` can be obtained from `b` by deleting elements (order is kept). */
  ghost predicate IsSubsequence<T>(a: seq<T>, b: seq<T>)
    decreases |b|
  {
    a == [] ||
    (b != [] &&
     ((a[0] == b[0] && IsSubsequence(a[1..], b[1..])) || IsSubsequence(a, b[1..])))
  }

  /** No element occurs twice. */
  ghost predicate Distinct<T>(s: seq<T>) {
    forall i, j | 0 <= i < j < |s| :: s[i] != s[j]
  }

  /** Every occurrence of a kept element survives; every other one is dropped. */
  lemma {:induction false} SelectCount<T>(s: seq<T>, keep: T -> bool, x: T)
    ensures multiset(Select(s, keep))[x] == if keep(x) then multiset(s)[x] else 0
    decreases |s|
  {
    if s != [] {
      SelectCount(s[1..], keep, x);
      assert s == [s[0]] + s[1..];
    }
  }

  lemma {:induction false} SelectIsSubsequence<T>(s: seq<T>, keep: T -> bool)
    ensures IsSubsequence(Select(s, keep), s)
    decreases |s|
  {
    if s != [] {
      SelectIsSubsequence(s[1..], keep);
      if keep(s[0]) {
        var r := Select(s, keep);
        assert r[0] == s[0] && r[1..] == Select(s[1..], keep);
      }
    }
  }

  lemma {:induction false} SubsequenceReflexive<T>(s: seq<T>)
    ensures IsSubsequence(s, s)
    decreases |s|
  {
    if s != [] {
      SubsequenceReflexive(s[1..]);
    }
  }

  /** Selecting with a predicate every element satisfies changes nothing. */
  lemma {:induction false} SelectKeepsAll<T>(s: seq<T>, keep: T -> bool)
    requires forall i | 0 <= i < |s| :: keep(s[i])
    ensures Select(s, keep) == s
    decreases |s|
  {
    if s != [] {
      SelectKeepsAll(s[1..], keep);
    }
  }

  /** Filtering twice with the same predicate is filtering once. */
  lemma SelectIdempotent<T>(s: seq<T>, keep: T -> bool)
    ensures Select(Select(s, keep), keep) == Select(s, keep)
  {
    var r := Select(s, keep);
    forall i | 0 <= i < |r|
      ensures keep(r[i])
    {
      assert r[i] in r;
    }
    SelectKeepsAll(r, keep);
  }

  /** A filter result is empty only when no element is kept. */
  lemma SelectNonEmpty<T>(s: seq<T>, keep: T -> bool, i: nat)
    requires i < |s| && keep(s[i])
    ensures Select(s, keep) != []
  {
    SelectCount(s, keep, s[i]);
    assert s[i] in multiset(s);
  }

  /** Index of the first element satisfying `p`, or `|s|` when there is none. */
  function FirstIndexWhere<T>(s: seq<T>, p: T -> bool): (k: nat)
    ensures k <= |s|
    ensures k < |s| ==> p(s[k])
    ensures forall j | 0 <= j < k :: !p(s[j])
    decreases |s|
  {
    if s == [] then 0
    else if p(s[0]) then 0
    else 1 + FirstIndexWhere(s[1..], p)
  }

  /** The three properties of FirstIndexWhere determine it. */
  lemma FirstIndexUnique<T>(s: seq<T>, p: T -> bool, k: nat)
    requires k <= |s|
    requires k < |s| ==> p(s[k])
    requires forall j | 0 <= j < k :: !p(s[j])
    ensures FirstIndexWhere(s, p) == k
  {
  }

  /** Appending an element does not move a first match already present. */
  lemma FirstIndexAppend<T>(s: seq<T>, x: T, p: T -> bool)
    ensures FirstIndexWhere(s, p) < |s| ==> FirstIndexWhere(s + [x], p) == FirstIndexWhere(s, p)
    ensures FirstIndexWhere(s, p) == |s| && p(x) ==> FirstIndexWhere(s + [x], p) == |s|
  {
    var f := FirstIndexWhere(s, p);
    var t := s + [x];
    if f < |s| {
      assert t[f] == s[f];
      FirstIndexUnique(t, p, f);
    } else if p(x) {
      assert t[|s|] == x;
      FirstIndexUnique(t, p, |s|);
    }
  }
}
