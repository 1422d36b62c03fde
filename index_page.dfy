/**
 * The home page (src/pages/Index.tsx): the six best-rated notes are featured,
 * taken from a sorted copy of the fetched notes.
 */
module IndexPage {
  import opened Wrappers
  import opened Types
  import opened NoteOrder

  const FeaturedCount: nat := 6

  function Min(a: int, b: int): int {
    if a <= b then a else b
  }

  /** Lines 31-35: the first six notes of the notes sorted by rating, best first. */
  function Featured(allNotes: seq<Note>): seq<Note> {
    var sorted := StableSort(allNotes, ByRating);
    StableSortLength(allNotes, ByRating);
    sorted[..Min(FeaturedCount, |sorted|)]
  }

  /** The featured list is as long as it can be, up to six. */
  lemma FeaturedLength(allNotes: seq<Note>)
    ensures |Featured(allNotes)| == Min(6, |allNotes|)
  {
    StableSortLength(allNotes, ByRating);
  }

  /** Featured notes come best-rated first. */
  lemma FeaturedSorted(allNotes: seq<Note>)
    ensures forall i, j :: 0 <= i < j < |Featured(allNotes)| ==>
      Featured(allNotes)[j].averageRating <= Featured(allNotes)[i].averageRating
  {
    StableSortCorrect(allNotes, ByRating);
    var sorted := StableSort(allNotes, ByRating);
    var f := Featured(allNotes);
    forall i, j | 0 <= i < j < |f| ensures f[j].averageRating <= f[i].averageRating {
      assert f[i] == sorted[i] && f[j] == sorted[j];
      assert Rank(ByRating, sorted[j]) <= Rank(ByRating, sorted[i]);
    }
  }

  /**
   * Every featured note is one of the fetched notes (taken at most as often
   * as it was fetched), and no note left out is rated above a featured one.
   */
  lemma FeaturedAreBest(allNotes: seq<Note>)
    ensures multiset(Featured(allNotes)) <= multiset(allNotes)
    ensures forall m, f :: m in multiset(allNotes) - multiset(Featured(allNotes)) && f in Featured(allNotes) ==>
      m.averageRating <= f.averageRating
  {
    StableSortCorrect(allNotes, ByRating);
    StableSortLength(allNotes, ByRating);
    var sorted := StableSort(allNotes, ByRating);
    var f := Featured(allNotes);
    var rest := sorted[|f|..];
    assert sorted == f + rest;
    assert multiset(allNotes) == multiset(f) + multiset(rest);
    PrefixOutranksRest(f, rest);
    forall m, x | m in multiset(allNotes) - multiset(f) && x in f
      ensures m.averageRating <= x.averageRating
    {
      assert m in rest;
    }
  }

  /** In a sequence sorted by rating, every note of a prefix is rated at least as high as every later note. */
  lemma PrefixOutranksRest(f: seq<Note>, rest: seq<Note>)
    requires Sorted(f + rest, ByRating)
    ensures forall m, x :: m in rest && x in f ==> m.averageRating <= x.averageRating
  {
    var s := f + rest;
    forall m, x | m in rest && x in f ensures m.averageRating <= x.averageRating {
      var j :| 0 <= j < |rest| && rest[j] == m;
      var i :| 0 <= i < |f| && f[i] == x;
      assert s[i] == x && s[|f| + j] == m;
      assert Rank(ByRating, s[|f| + j]) <= Rank(ByRating, s[i]);
    }
  }

  /** The same selection on a copy sorted in place; the fetched notes are left as they are. */
  method SelectFeatured(allNotes: seq<Note>) returns (featured: seq<Note>)
    ensures featured == Featured(allNotes)
  {
    var copy := new Note[|allNotes|](k requires 0 <= k < |allNotes| => allNotes[k]);
    assert copy[..] == allNotes;
    SortInPlace(copy, ByRating);
    featured := copy[..Min(FeaturedCount, copy.Length)];
  }

  /** The state of the home page. */
  class IndexView {
    var featuredNotes: seq<Note>
    var subjects: seq<Subject>
    var isLoading: bool

    constructor ()
      ensures featuredNotes == [] && subjects == [] && isLoading
    {
      featuredNotes, subjects, isLoading := [], [], true;
    }

    /**
     * Lines 22-45 with both fetches as one outcome: on success the featured
     * notes and the subjects are set; on failure both keep their values.
     * Loading ends either way.
     */
    method LoadData(fetched: Result<(seq<Note>, seq<Subject>), string>)
      modifies this
      ensures fetched.Ok? ==> featuredNotes == Featured(fetched.value.0) && subjects == fetched.value.1
      ensures fetched.Err? ==> featuredNotes == old(featuredNotes) && subjects == old(subjects)
      ensures !isLoading
    {
      if fetched.Ok? {
        featuredNotes := SelectFeatured(fetched.value.0);
        subjects := fetched.value.1;
      }
      isLoading := false;
    }
  }
}
