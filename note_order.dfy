/**
 * The four note orderings of the list page and the stable sort that applies
 * them (src/pages/Notes.tsx:83-96, src/pages/Index.tsx:31-33).
 *
 * Every comparator the pages pass to `Array.prototype.sort` has the shape
 * `key(b) - key(a)` for some numeric key: `Rank` is that key, and a note goes
 * after another exactly when its rank is strictly smaller. `Array.prototype.sort`
 * is stable, so notes of equal rank keep their relative order; `StableSort` is
 * that sort, written as an insertion sort, and `SortInPlace` the in-place
 * version on an array.
 */
module NoteOrder {
  import opened Wrappers
  import opened Types

  datatype SortOrder = Recent | Oldest | ByRating | ByComments

  /** The `sortBy` keys the list page understands; any other key sorts nothing. */
  function ParseSort(key: string): (r: Option<SortOrder>)
    ensures r == Some(Recent) <==> key == "recent"
    ensures r == Some(Oldest) <==> key == "oldest"
    ensures r == Some(ByRating) <==> key == "rating"
    ensures r == Some(ByComments) <==> key == "comments"
  {
    if key == "recent" then Some(Recent)
    else if key == "oldest" then Some(Oldest)
    else if key == "rating" then Some(ByRating)
    else if key == "comments" then Some(ByComments)
    else None
  }

  /** The key an ordering sorts by, larger first. */
  function Rank(order: SortOrder, n: Note): real {
    match order
    case Recent => n.uploadDate as real
    case Oldest => -(n.uploadDate as real)
    case ByRating => n.averageRating
    case ByComments => n.commentCount as real
  }

  /**
   * The comparator as the pages write it. A positive value puts `a` after `b`,
   * which happens exactly when `a` ranks strictly below `b`.
   */
  function Compare(order: SortOrder, a: Note, b: Note): (r: real)
    ensures r == Rank(order, b) - Rank(order, a)
    ensures r > 0.0 <==> Rank(order, a) < Rank(order, b)
  {
    match order
    case Recent => (b.uploadDate - a.uploadDate) as real
    case Oldest => (a.uploadDate - b.uploadDate) as real
    case ByRating => b.averageRating - a.averageRating
    case ByComments => (b.commentCount - a.commentCount) as real
  }

  /** No note ranks above a note before it. */
  ghost predicate Sorted(s: seq<Note>, order: SortOrder) {
    forall i, j :: 0 <= i < j < |s| ==> Rank(order, s[j]) <= Rank(order, s[i])
  }

  /** The notes of `s` whose rank is `v`, in their order in `s`. */
  function Tied(s: seq<Note>, order: SortOrder, v: real): seq<Note> {
    if s == [] then [] else TiedOne(s[0], order, v) + Tied(s[1..], order, v)
  }

  /** `[n]` when `n` has rank `v`, else nothing. */
  function TiedOne(n: Note, order: SortOrder, v: real): seq<Note> {
    if Rank(order, n) == v then [n] else []
  }

  /** Puts `x` into `t` after every note that ranks at least as high as `x`. */
  function Insert(t: seq<Note>, x: Note, order: SortOrder): seq<Note> {
    if t == [] then [x]
    else if Rank(order, t[0]) < Rank(order, x) then [x] + t
    else [t[0]] + Insert(t[1..], x, order)
  }

  /** The result of `s.sort(comparator)` for the comparator of `order`. */
  function StableSort(s: seq<Note>, order: SortOrder): seq<Note> {
    if s == [] then [] else Insert(StableSort(s[..|s| - 1], order), s[|s| - 1], order)
  }

  /** Inserting adds exactly `x` to the notes of `t`. */
  lemma {:induction false} InsertPermutes(t: seq<Note>, x: Note, order: SortOrder)
    ensures multiset(Insert(t, x, order)) == multiset(t) + multiset{x}
  {
    if t != [] && Rank(order, x) <= Rank(order, t[0]) {
      var rest := Insert(t[1..], x, order);
      assert t == [t[0]] + t[1..];
      calc {
        multiset(Insert(t, x, order));
        multiset([t[0]] + rest);
        multiset{t[0]} + multiset(rest);
        { InsertPermutes(t[1..], x, order); }
        multiset{t[0]} + multiset(t[1..]) + multiset{x};
        multiset(t) + multiset{x};
      }
    }
  }

  /** A bound on the ranks of `t` and of `x` bounds the ranks after inserting `x`. */
  lemma {:induction false} InsertBoundedBy(t: seq<Note>, x: Note, order: SortOrder, v: real)
    requires forall k :: 0 <= k < |t| ==> Rank(order, t[k]) <= v
    requires Rank(order, x) <= v
    ensures forall k :: 0 <= k < |Insert(t, x, order)| ==> Rank(order, Insert(t, x, order)[k]) <= v
  {
    if t != [] && Rank(order, x) <= Rank(order, t[0]) {
      var rest := Insert(t[1..], x, order);
      InsertBoundedBy(t[1..], x, order, v);
      forall k | 0 <= k < |[t[0]] + rest| ensures Rank(order, ([t[0]] + rest)[k]) <= v {
        if k > 0 {
          assert ([t[0]] + rest)[k] == rest[k - 1];
        }
      }
    } else if t != [] {
      forall k | 0 <= k < |[x] + t| ensures Rank(order, ([x] + t)[k]) <= v {
        if k > 0 {
          assert ([x] + t)[k] == t[k - 1];
        }
      }
    }
  }

  /** Inserting into an ordered sequence keeps it ordered. */
  lemma {:induction false} InsertPreservesOrder(t: seq<Note>, x: Note, order: SortOrder)
    requires Sorted(t, order)
    ensures Sorted(Insert(t, x, order), order)
  {
    if t != [] && Rank(order, x) <= Rank(order, t[0]) {
      var tail := t[1..];
      assert forall k :: 0 <= k < |tail| ==> tail[k] == t[k + 1];
      InsertPreservesOrder(tail, x, order);
      InsertBoundedBy(tail, x, order, Rank(order, t[0]));
      var rest := Insert(tail, x, order);
      var r := [t[0]] + rest;
      forall i, j | 0 <= i < j < |r| ensures Rank(order, r[j]) <= Rank(order, r[i]) {
        assert r[j] == rest[j - 1];
        if i > 0 {
          assert r[i] == rest[i - 1];
        }
      }
    } else if t != [] {
      var r := [x] + t;
      forall i, j | 0 <= i < j < |r| ensures Rank(order, r[j]) <= Rank(order, r[i]) {
        assert r[j] == t[j - 1];
        if i > 0 {
          assert r[i] == t[i - 1];
        } else {
          assert Rank(order, t[j - 1]) <= Rank(order, t[0]);
        }
      }
    }
  }

  lemma {:induction false} StableSortLength(s: seq<Note>, order: SortOrder)
    ensures |StableSort(s, order)| == |s|
  {
    if s != [] {
      StableSortLength(s[..|s| - 1], order);
      InsertLength(StableSort(s[..|s| - 1], order), s[|s| - 1], order);
    }
  }

  lemma {:induction false} InsertLength(t: seq<Note>, x: Note, order: SortOrder)
    ensures |Insert(t, x, order)| == |t| + 1
  {
    if t != [] {
      InsertLength(t[1..], x, order);
    }
  }

  /** The stable sort orders the notes. */
  lemma {:induction false} StableSortSorted(s: seq<Note>, order: SortOrder)
    ensures Sorted(StableSort(s, order), order)
  {
    if s != [] {
      StableSortSorted(s[..|s| - 1], order);
      InsertPreservesOrder(StableSort(s[..|s| - 1], order), s[|s| - 1], order);
    }
  }

  /** The stable sort is a permutation of its input. */
  lemma {:induction false} StableSortPermutes(s: seq<Note>, order: SortOrder)
    ensures multiset(StableSort(s, order)) == multiset(s)
  {
    if s != [] {
      var init, last := s[..|s| - 1], s[|s| - 1];
      var sorted := StableSort(init, order);
      assert s == init + [last];
      calc {
        multiset(StableSort(s, order));
        multiset(Insert(sorted, last, order));
        { InsertPermutes(sorted, last, order); }
        multiset(sorted) + multiset{last};
        { StableSortPermutes(init, order); }
        multiset(init) + multiset{last};
        multiset(init + [last]);
      }
    }
  }

  /** The stable sort orders the notes and is a permutation of its input. */
  lemma StableSortCorrect(s: seq<Note>, order: SortOrder)
    ensures Sorted(StableSort(s, order), order)
    ensures multiset(StableSort(s, order)) == multiset(s)
  {
    StableSortSorted(s, order);
    StableSortPermutes(s, order);
  }

  lemma {:induction false} TiedAppend(s: seq<Note>, x: Note, order: SortOrder, v: real)
    ensures Tied(s + [x], order, v) == Tied(s, order, v) + TiedOne(x, order, v)
  {
    if s == [] {
      assert [x][1..] == [];
    } else {
      var head := TiedOne(s[0], order, v);
      assert (s + [x])[0] == s[0];
      assert (s + [x])[1..] == s[1..] + [x];
      calc {
        Tied(s + [x], order, v);
        head + Tied(s[1..] + [x], order, v);
        { TiedAppend(s[1..], x, order, v); }
        head + (Tied(s[1..], order, v) + TiedOne(x, order, v));
        (head + Tied(s[1..], order, v)) + TiedOne(x, order, v);
        Tied(s, order, v) + TiedOne(x, order, v);
      }
    }
  }

  lemma {:induction false} TiedNone(s: seq<Note>, order: SortOrder, v: real)
    requires forall k :: 0 <= k < |s| ==> Rank(order, s[k]) < v
    ensures Tied(s, order, v) == []
  {
    if s != [] {
      TiedNone(s[1..], order, v);
    }
  }

  /** `x` goes in front: it outranks the first note, so it is tied with no note of `t`. */
  lemma InsertTiedFront(t: seq<Note>, x: Note, order: SortOrder, v: real)
    requires Sorted(t, order) && t != [] && Rank(order, t[0]) < Rank(order, x)
    ensures Tied(Insert(t, x, order), order, v) == Tied(t, order, v) + TiedOne(x, order, v)
  {
    assert ([x] + t)[0] == x && ([x] + t)[1..] == t;
    assert Tied(Insert(t, x, order), order, v) == TiedOne(x, order, v) + Tied(t, order, v);
    if Rank(order, x) == v {
      assert forall k :: 0 <= k < |t| ==> Rank(order, t[k]) <= Rank(order, t[0]);
      TiedNone(t, order, v);
    }
  }

  lemma {:induction false} InsertTied(t: seq<Note>, x: Note, order: SortOrder, v: real)
    requires Sorted(t, order)
    ensures Tied(Insert(t, x, order), order, v) == Tied(t, order, v) + TiedOne(x, order, v)
  {
    if t == [] {
      assert [x][1..] == [];
    } else if Rank(order, t[0]) < Rank(order, x) {
      InsertTiedFront(t, x, order, v);
    } else {
      var tail := t[1..];
      var rest := Insert(tail, x, order);
      assert Sorted(tail, order) by {
        assert forall k :: 0 <= k < |tail| ==> tail[k] == t[k + 1];
      }
      InsertTied(tail, x, order, v);
      InsertTiedBehind(t, rest, order, v);
    }
  }

  /** The tied notes of a sequence that starts with `t[0]` and goes on with `rest`. */
  lemma InsertTiedBehind(t: seq<Note>, rest: seq<Note>, order: SortOrder, v: real)
    requires t != []
    ensures Tied([t[0]] + rest, order, v) == TiedOne(t[0], order, v) + Tied(rest, order, v)
  {
    assert ([t[0]] + rest)[0] == t[0] && ([t[0]] + rest)[1..] == rest;
  }

  /**
   * The sort is stable: for every rank, the notes of that rank come out in
   * the order they went in.
   */
  lemma {:induction false} StableSortIsStable(s: seq<Note>, order: SortOrder, v: real)
    ensures Tied(StableSort(s, order), order, v) == Tied(s, order, v)
  {
    if s != [] {
      var init, last := s[..|s| - 1], s[|s| - 1];
      var sorted := StableSort(init, order);
      assert StableSort(s, order) == Insert(sorted, last, order);
      StableSortIsStable(init, order, v);
      StableSortSorted(init, order);
      InsertTied(sorted, last, order, v);
      TiedAppend(init, last, order, v);
      assert s == init + [last];
    }
  }

  /** A sequence that is already in order is left as it is. */
  lemma {:induction false} StableSortOfSorted(s: seq<Note>, order: SortOrder)
    requires Sorted(s, order)
    ensures StableSort(s, order) == s
  {
    if s != [] {
      var init, last := s[..|s| - 1], s[|s| - 1];
      assert Sorted(init, order);
      StableSortOfSorted(init, order);
      InsertAt(init, last, order, |init|);
      assert init[..|init|] + [last] + init[|init|..] == s;
    }
  }

  /** Where `Insert` puts `x`: after the `j` notes ranking at least as high, before the rest. */
  lemma {:induction false} InsertAt(t: seq<Note>, x: Note, order: SortOrder, j: int)
    requires 0 <= j <= |t|
    requires forall k :: 0 <= k < j ==> Rank(order, x) <= Rank(order, t[k])
    requires forall k :: j <= k < |t| ==> Rank(order, t[k]) < Rank(order, x)
    ensures Insert(t, x, order) == t[..j] + [x] + t[j..]
  {
    if j > 0 {
      InsertAt(t[1..], x, order, j - 1);
      assert t[..j] == [t[0]] + t[1..][..j - 1];
      assert t[j..] == t[1..][j - 1..];
    } else if t != [] {
      assert Rank(order, t[0]) < Rank(order, x);
    }
  }

  /**
   * The shifting loop of one insertion step: moves the notes before `a[i]`
   * that rank strictly below it one place up and returns the gap `j` that
   * is left for `a[i]`.
   */
  method ShiftRight(a: array<Note>, i: int, order: SortOrder) returns (j: int)
    requires 0 <= i < a.Length
    modifies a
    ensures 0 <= j <= i
    ensures forall k :: 0 <= k < j ==> a[k] == old(a[k])
    ensures forall k :: j < k <= i ==> a[k] == old(a[k - 1])
    ensures forall k :: i < k < a.Length ==> a[k] == old(a[k])
    ensures forall k :: j <= k < i ==> Rank(order, old(a[k])) < Rank(order, old(a[i]))
    ensures j > 0 ==> Rank(order, old(a[i])) <= Rank(order, old(a[j - 1]))
  {
    var x := a[i];
    j := i;
    while j > 0 && Compare(order, a[j - 1], x) > 0.0
      invariant 0 <= j <= i
      invariant forall k :: 0 <= k < j ==> a[k] == old(a[k])
      invariant forall k :: j < k <= i ==> a[k] == old(a[k - 1])
      invariant forall k :: i < k < a.Length ==> a[k] == old(a[k])
      invariant forall k :: j <= k < i ==> Rank(order, old(a[k])) < Rank(order, x)
    {
      a[j] := a[j - 1];
      j := j - 1;
    }
  }

  /** One step of the insertion sort: moves `a[i]` back into the sorted prefix `a[..i]`. */
  method InsertInto(a: array<Note>, i: int, order: SortOrder)
    requires 0 <= i < a.Length
    requires Sorted(a[..i], order)
    modifies a
    ensures a[..i + 1] == Insert(old(a[..i]), old(a[i]), order)
    ensures a[i + 1..] == old(a[i + 1..])
  {
    ghost var before := a[..];
    ghost var sorted := a[..i];
    var x := a[i];
    var j := ShiftRight(a, i, order);
    a[j] := x;
    InsertedAt(sorted, x, order, j, a[..], before);
  }

  /** In an ordered sequence, `x` ranks at most as high as each note before one it does not outrank. */
  lemma RankedBelowPrefix(sorted: seq<Note>, x: Note, order: SortOrder, j: int)
    requires 0 <= j <= |sorted| && Sorted(sorted, order)
    requires j > 0 ==> Rank(order, x) <= Rank(order, sorted[j - 1])
    ensures forall k :: 0 <= k < j ==> Rank(order, x) <= Rank(order, sorted[k])
  {
    forall k | 0 <= k < j ensures Rank(order, x) <= Rank(order, sorted[k]) {
      assert Rank(order, sorted[j - 1]) <= Rank(order, sorted[k]);
    }
  }

  /** The array after the shifting loop of `InsertInto` holds the inserted prefix and an untouched rest. */
  lemma InsertedAt(sorted: seq<Note>, x: Note, order: SortOrder, j: int, after: seq<Note>, before: seq<Note>)
    requires |sorted| < |after| == |before| && sorted == before[..|sorted|] && x == before[|sorted|]
    requires 0 <= j <= |sorted| && Sorted(sorted, order)
    requires forall k :: 0 <= k < j ==> after[k] == sorted[k]
    requires after[j] == x
    requires forall k :: j < k <= |sorted| ==> after[k] == sorted[k - 1]
    requires forall k :: |sorted| < k < |after| ==> after[k] == before[k]
    requires j > 0 ==> Rank(order, x) <= Rank(order, sorted[j - 1])
    requires forall k :: j <= k < |sorted| ==> Rank(order, sorted[k]) < Rank(order, x)
    ensures after[..|sorted| + 1] == Insert(sorted, x, order)
    ensures after[|sorted| + 1..] == before[|sorted| + 1..]
  {
    RankedBelowPrefix(sorted, x, order, j);
    InsertAt(sorted, x, order, j);
    var n := |sorted|;
    var r := sorted[..j] + [x] + sorted[j..];
    var prefix := after[..n + 1];
    assert |prefix| == |r|;
    forall k | 0 <= k <= n ensures prefix[k] == r[k] {
      if k < j {
        assert r[k] == sorted[k];
      } else if k > j {
        assert r[k] == sorted[k - 1];
      }
    }
    assert prefix == r;
    var tail, beforeTail := after[n + 1..], before[n + 1..];
    assert |tail| == |beforeTail|;
    forall k | 0 <= k < |tail| ensures tail[k] == beforeTail[k] {
      assert tail[k] == after[n + 1 + k];
    }
    assert tail == beforeTail;
  }

  /** Sorting one more note inserts it into the sorted rest. */
  lemma StableSortSnoc(s: seq<Note>, x: Note, order: SortOrder)
    ensures StableSort(s + [x], order) == Insert(StableSort(s, order), x, order)
  {
    assert (s + [x])[..|s + [x]| - 1] == s;
  }

  /** `a.sort(comparator)`: a stable insertion sort in place. */
  method SortInPlace(a: array<Note>, order: SortOrder)
    modifies a
    ensures a[..] == StableSort(old(a[..]), order)
  {
    ghost var input := a[..];
    var i := 0;
    while i < a.Length
      invariant 0 <= i <= a.Length
      invariant a[..i] == StableSort(input[..i], order)
      invariant a[i..] == input[i..]
    {
      ghost var prefix := input[..i];
      assert input[..i + 1] == prefix + [input[i]];
      assert a[i] == input[i] by {
        assert a[i..][0] == input[i..][0];
      }
      assert a[i + 1..] == input[i + 1..] by {
        assert a[i + 1..] == a[i..][1..] && input[i + 1..] == input[i..][1..];
      }
      StableSortSorted(prefix, order);
      StableSortSnoc(prefix, input[i], order);
      InsertInto(a, i, order);
      i := i + 1;
    }
    assert input[..a.Length] == input;
  }

  /** `[...notes].sort(comparator)`: the notes copied into a fresh array and sorted there. */
  method SortedCopy(s: seq<Note>, order: SortOrder) returns (r: seq<Note>)
    ensures r == StableSort(s, order)
  {
    var a := new Note[|s|](k requires 0 <= k < |s| => s[k]);
    assert a[..] == s;
    SortInPlace(a, order);
    r := a[..];
  }
}
