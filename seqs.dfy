/** Order-preserving selection over sequences (`Array.prototype.filter`, Java's `stream().filter`). */
module Seqs {
  import opened Wrappers

  /** `s` is `t` with some elements dropped and the rest left in order. */
  ghost predicate IsSubsequence<T>(s: seq<T>, t: seq<T>)
    decreases |t|
  {
    s == [] || (t != [] && ((s[0] == t[0] && IsSubsequence(s[1..], t[1..])) || IsSubsequence(s, t[1..])))
  }

  /** Every sequence is a subsequence of itself. */
  lemma {:induction false} SubsequenceOfItself<T>(s: seq<T>)
    ensures IsSubsequence(s, s)
  {
    if s != [] {
      SubsequenceOfItself(s[1..]);
    }
  }

  /** Dropping elements twice is dropping elements once. */
  lemma {:induction false} SubsequenceTransitive<T>(a: seq<T>, b: seq<T>, c: seq<T>)
    requires IsSubsequence(a, b) && IsSubsequence(b, c)
    ensures IsSubsequence(a, c)
    decreases |c|
  {
    if a != [] {
      if b[0] == c[0] && IsSubsequence(b[1..], c[1..]) {
        if a[0] == b[0] && IsSubsequence(a[1..], b[1..]) {
          SubsequenceTransitive(a[1..], b[1..], c[1..]);
        } else {
          SubsequenceTransitive(a, b[1..], c[1..]);
        }
      } else {
        SubsequenceTransitive(a, b, c[1..]);
      }
    }
  }

  /**
   * The elements of `s` that satisfy `p`, in their order in `s`. Each element
   * that passes is kept as often as it occurs in `s`; each that fails is gone.
   */
  function Filter<T(!new)>(s: seq<T>, p: T -> bool): (r: seq<T>)
    ensures |r| <= |s|
    ensures forall k :: 0 <= k < |r| ==> p(r[k])
    ensures forall x :: multiset(r)[x] == if p(x) then multiset(s)[x] else 0
  {
    if s == [] then []
    else
      var rest := Filter(s[1..], p);
      assert s == [s[0]] + s[1..];
      (if p(s[0]) then [s[0]] else []) + rest
  }

  /** Membership in a filtered sequence: in the input, and passing the predicate. */
  lemma FilterMembership<T(!new)>(s: seq<T>, p: T -> bool, x: T)
    ensures x in Filter(s, p) <==> x in s && p(x)
  {
    assert x in Filter(s, p) <==> multiset(Filter(s, p))[x] > 0;
    assert x in s <==> multiset(s)[x] > 0;
  }

  /** The filter keeps the input order. */
  lemma {:induction false} FilterIsSubsequence<T(!new)>(s: seq<T>, p: T -> bool)
    ensures IsSubsequence(Filter(s, p), s)
  {
    if s != [] {
      var r := Filter(s[1..], p);
      FilterIsSubsequence(s[1..], p);
      if p(s[0]) {
        assert Filter(s, p) == [s[0]] + r;
        assert ([s[0]] + r)[1..] == r;
      } else {
        assert Filter(s, p) == r;
      }
    }
  }

  /** A predicate every element passes removes nothing. */
  lemma {:induction false} FilterKeepsAll<T(!new)>(s: seq<T>, p: T -> bool)
    requires forall k :: 0 <= k < |s| ==> p(s[k])
    ensures Filter(s, p) == s
  {
    if s != [] {
      FilterKeepsAll(s[1..], p);
      assert [s[0]] + s[1..] == s;
    }
  }

  /** `s.findIndex(p)`: the position of the first element satisfying `p`, if any. */
  function FindIndex<T>(s: seq<T>, p: T -> bool): (r: Option<nat>)
    ensures r.Some? ==> r.value < |s| && p(s[r.value]) && forall j :: 0 <= j < r.value ==> !p(s[j])
    ensures r.None? ==> forall k :: 0 <= k < |s| ==> !p(s[k])
  {
    if s == [] then None
    else if p(s[0]) then Some(0)
    else match FindIndex(s[1..], p)
      case None => None
      case Some(i) => Some(i + 1)
  }

  /** `s.find(p)`: the first element satisfying `p`, if any. */
  function Find<T>(s: seq<T>, p: T -> bool): (r: Option<T>)
    ensures r.Some? ==> r.value in s && p(r.value)
    ensures r.None? <==> forall k :: 0 <= k < |s| ==> !p(s[k])
    ensures r.Some? ==> exists i :: 0 <= i < |s| && s[i] == r.value && forall j :: 0 <= j < i ==> !p(s[j])
  {
    match FindIndex(s, p)
    case None => None
    case Some(i) => Some(s[i])
  }
}
