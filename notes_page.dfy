/**
 * The note list page (src/pages/Notes.tsx): the subject filter, the
 * case-insensitive search, the chosen ordering, the URL search parameters that
 * mirror the filter state, and the page state that holds them.
 */
module NotesPage {
  import opened Wrappers
  import opened Types
  import opened Text
  import opened Seqs
  import opened NoteOrder

  /** The note belongs to the subject with this code. */
  function InSubject(code: string): Note -> bool {
    (n: Note) => n.subject.code == code
  }

  /** The lowered query occurs in the lowered note name, subject name or author name. */
  predicate MatchesQuery(n: Note, loweredQuery: string) {
    || Contains(Lower(n.name), loweredQuery)
    || Contains(Lower(n.subject.name), loweredQuery)
    || Contains(Lower(n.user.name), loweredQuery)
  }

  function MatchesSearch(query: string): Note -> bool {
    (n: Note) => MatchesQuery(n, Lower(query))
  }

  /** `if (selectedSubject) result = result.filter(...)`. */
  function SubjectFilter(notes: seq<Note>, selectedSubject: string): seq<Note> {
    if selectedSubject != "" then Filter(notes, InSubject(selectedSubject)) else notes
  }

  /** `if (searchQuery) result = result.filter(...)`. */
  function SearchFilter(notes: seq<Note>, searchQuery: string): seq<Note> {
    if searchQuery != "" then Filter(notes, MatchesSearch(searchQuery)) else notes
  }

  /** Both filters, subject first. */
  function Visible(notes: seq<Note>, searchQuery: string, selectedSubject: string): seq<Note> {
    SearchFilter(SubjectFilter(notes, selectedSubject), searchQuery)
  }

  /** What the page shows: the visible notes, sorted when `sortBy` names an ordering. */
  function Shown(notes: seq<Note>, searchQuery: string, selectedSubject: string, sortBy: string): seq<Note> {
    var visible := Visible(notes, searchQuery, selectedSubject);
    match ParseSort(sortBy)
    case Some(order) => StableSort(visible, order)
    case None => visible
  }

  /** A note passes both filters. */
  predicate Passes(n: Note, searchQuery: string, selectedSubject: string) {
    && (selectedSubject == "" || n.subject.code == selectedSubject)
    && (searchQuery == "" || MatchesQuery(n, Lower(searchQuery)))
  }

  /**
   * The filters only remove notes: each note that passes both filters is kept
   * exactly as often as it occurs in the input, and every other note is gone.
   */
  lemma VisibleContents(notes: seq<Note>, searchQuery: string, selectedSubject: string)
    ensures forall n :: multiset(Visible(notes, searchQuery, selectedSubject))[n] ==
                        (if Passes(n, searchQuery, selectedSubject) then multiset(notes)[n] else 0)
    ensures IsSubsequence(Visible(notes, searchQuery, selectedSubject), notes)
  {
    var bySubject := SubjectFilter(notes, selectedSubject);
    if selectedSubject != "" {
      FilterIsSubsequence(notes, InSubject(selectedSubject));
    } else {
      SubsequenceOfItself(notes);
    }
    if searchQuery != "" {
      FilterIsSubsequence(bySubject, MatchesSearch(searchQuery));
    } else {
      SubsequenceOfItself(bySubject);
    }
    SubsequenceTransitive(Visible(notes, searchQuery, selectedSubject), bySubject, notes);
  }

  /** With a subject selected, every shown note has that subject's code. */
  lemma ShownSubject(notes: seq<Note>, searchQuery: string, selectedSubject: string, sortBy: string)
    requires selectedSubject != ""
    ensures forall k :: 0 <= k < |Shown(notes, searchQuery, selectedSubject, sortBy)| ==>
      Shown(notes, searchQuery, selectedSubject, sortBy)[k].subject.code == selectedSubject
  {
    ShownContents(notes, searchQuery, selectedSubject, sortBy);
    var shown := Shown(notes, searchQuery, selectedSubject, sortBy);
    forall k | 0 <= k < |shown| ensures shown[k].subject.code == selectedSubject {
      assert multiset(shown)[shown[k]] > 0;
    }
  }

  /**
   * A note is shown exactly when it is in the input, has the selected subject
   * (if one is selected) and contains the lowered query in its lowered name,
   * subject name or author name (if there is a query).
   */
  lemma ShownMembership(notes: seq<Note>, searchQuery: string, selectedSubject: string, sortBy: string, n: Note)
    ensures n in Shown(notes, searchQuery, selectedSubject, sortBy) <==>
      && n in notes
      && (selectedSubject == "" || n.subject.code == selectedSubject)
      && (searchQuery == "" || MatchesQuery(n, Lower(searchQuery)))
  {
    ShownContents(notes, searchQuery, selectedSubject, sortBy);
    assert n in Shown(notes, searchQuery, selectedSubject, sortBy) <==> multiset(Shown(notes, searchQuery, selectedSubject, sortBy))[n] > 0;
    assert n in notes <==> multiset(notes)[n] > 0;
  }

  /** Sorting rearranges the visible notes and neither adds nor drops one. */
  lemma ShownContents(notes: seq<Note>, searchQuery: string, selectedSubject: string, sortBy: string)
    ensures multiset(Shown(notes, searchQuery, selectedSubject, sortBy)) == multiset(Visible(notes, searchQuery, selectedSubject))
    ensures forall n :: multiset(Shown(notes, searchQuery, selectedSubject, sortBy))[n] ==
                        (if Passes(n, searchQuery, selectedSubject) then multiset(notes)[n] else 0)
  {
    VisibleContents(notes, searchQuery, selectedSubject);
    match ParseSort(sortBy) {
      case Some(order) => StableSortCorrect(Visible(notes, searchQuery, selectedSubject), order);
      case None =>
    }
  }

  /**
   * The four orderings: `recent` gives non-increasing upload dates, `oldest`
   * non-decreasing ones, `rating` non-increasing averages and `comments`
   * non-increasing comment counts.
   */
  lemma ShownOrder(notes: seq<Note>, searchQuery: string, selectedSubject: string, sortBy: string)
    ensures var r := Shown(notes, searchQuery, selectedSubject, sortBy);
      && (sortBy == "recent" ==> forall i, j :: 0 <= i < j < |r| ==> r[j].uploadDate <= r[i].uploadDate)
      && (sortBy == "oldest" ==> forall i, j :: 0 <= i < j < |r| ==> r[i].uploadDate <= r[j].uploadDate)
      && (sortBy == "rating" ==> forall i, j :: 0 <= i < j < |r| ==> r[j].averageRating <= r[i].averageRating)
      && (sortBy == "comments" ==> forall i, j :: 0 <= i < j < |r| ==> r[j].commentCount <= r[i].commentCount)
  {
    var visible := Visible(notes, searchQuery, selectedSubject);
    var r := Shown(notes, searchQuery, selectedSubject, sortBy);
    match ParseSort(sortBy) {
      case Some(order) =>
        StableSortSorted(visible, order);
        forall i, j | 0 <= i < j < |r|
          ensures order == Recent ==> r[j].uploadDate <= r[i].uploadDate
          ensures order == Oldest ==> r[i].uploadDate <= r[j].uploadDate
          ensures order == ByRating ==> r[j].averageRating <= r[i].averageRating
          ensures order == ByComments ==> r[j].commentCount <= r[i].commentCount
        {
          assert Rank(order, r[j]) <= Rank(order, r[i]);
        }
      case None =>
    }
  }

  /** Ties keep the order they had after filtering, because the sort is stable. */
  lemma ShownTiesKeepOrder(notes: seq<Note>, searchQuery: string, selectedSubject: string, sortBy: string, v: real)
    requires ParseSort(sortBy).Some?
    ensures var order := ParseSort(sortBy).value;
      Tied(Shown(notes, searchQuery, selectedSubject, sortBy), order, v) == Tied(Visible(notes, searchQuery, selectedSubject), order, v)
  {
    StableSortIsStable(Visible(notes, searchQuery, selectedSubject), ParseSort(sortBy).value, v);
  }

  /** An unrecognised sort key leaves the filtered order as it is. */
  lemma ShownUnsorted(notes: seq<Note>, searchQuery: string, selectedSubject: string, sortBy: string)
    requires sortBy !in {"recent", "oldest", "rating", "comments"}
    ensures Shown(notes, searchQuery, selectedSubject, sortBy) == Visible(notes, searchQuery, selectedSubject)
  {
    assert ParseSort(sortBy) == None;
  }

  /** No filter and no known ordering: the page shows the notes exactly as fetched. */
  lemma ShownUnfiltered(notes: seq<Note>, sortBy: string)
    requires ParseSort(sortBy) == None
    ensures Shown(notes, "", "", sortBy) == notes
  {
  }

  /**
   * The effect of lines 60-98: copy the notes, filter them, sort the copy in
   * place with the chosen comparator.
   */
  method FilterAndSort(notes: seq<Note>, searchQuery: string, selectedSubject: string, sortBy: string)
    returns (result: seq<Note>)
    ensures result == Shown(notes, searchQuery, selectedSubject, sortBy)
  {
    var visible := Visible(notes, searchQuery, selectedSubject);
    match ParseSort(sortBy) {
      case Some(order) => result := SortedCopy(visible, order);
      case None => result := visible;
    }
  }

  /** URL search parameters in insertion order; `get` answers with the first match. */
  type SearchParams = seq<(string, string)>

  function Get(params: SearchParams, key: string): (r: Option<string>)
    ensures r.Some? ==> exists k :: 0 <= k < |params| && params[k] == (key, r.value) &&
                                    forall j :: 0 <= j < k ==> params[j].0 != key
    ensures r.None? ==> forall k :: 0 <= k < |params| ==> params[k].0 != key
  {
    if params == [] then None
    else if params[0].0 == key then Some(params[0].1)
    else
      var r := Get(params[1..], key);
      if r.Some? then
        var k :| 0 <= k < |params| - 1 && params[1..][k] == (key, r.value) &&
                 forall j :: 0 <= j < k ==> params[1..][j].0 != key;
        assert params[k + 1] == (key, r.value);
        assert forall j :: 0 < j < k + 1 ==> params[j].0 == params[1..][j - 1].0;
        r
      else r
  }

  /** Lines 101-104: each parameter is written only when its value is non-empty. */
  function UrlParams(searchQuery: string, selectedSubject: string, sortBy: string): SearchParams {
    (if searchQuery != "" then [("query", searchQuery)] else [])
    + (if selectedSubject != "" then [("subject", selectedSubject)] else [])
    + (if sortBy != "" then [("sort", sortBy)] else [])
  }

  /**
   * Each of `query`, `subject` and `sort` can be read back exactly when its
   * value is non-empty, and nothing else is written.
   */
  lemma UrlParamsLookup(searchQuery: string, selectedSubject: string, sortBy: string)
    ensures var params := UrlParams(searchQuery, selectedSubject, sortBy);
      && Get(params, "query") == (if searchQuery != "" then Some(searchQuery) else None)
      && Get(params, "subject") == (if selectedSubject != "" then Some(selectedSubject) else None)
      && Get(params, "sort") == (if sortBy != "" then Some(sortBy) else None)
      && forall k :: 0 <= k < |params| ==> params[k].0 in {"query", "subject", "sort"} && params[k].1 != ""
  {
    var q: SearchParams := if searchQuery != "" then [("query", searchQuery)] else [];
    var sub: SearchParams := if selectedSubject != "" then [("subject", selectedSubject)] else [];
    var srt: SearchParams := if sortBy != "" then [("sort", sortBy)] else [];
    var params := q + sub + srt;
    assert UrlParams(searchQuery, selectedSubject, sortBy) == params;
    assert Get(params, "query") == (if searchQuery != "" then Some(searchQuery) else None) by {
      GetConcat(q, sub, "query");
      GetConcat(q + sub, srt, "query");
    }
    assert Get(params, "subject") == (if selectedSubject != "" then Some(selectedSubject) else None) by {
      GetConcat(q, sub, "subject");
      GetConcat(q + sub, srt, "subject");
    }
    assert Get(params, "sort") == (if sortBy != "" then Some(sortBy) else None) by {
      GetConcat(q, sub, "sort");
      GetConcat(q + sub, srt, "sort");
    }
    UrlParamsEntries(searchQuery, selectedSubject, sortBy);
  }

  /** Every written parameter has one of the three keys and a non-empty value. */
  lemma UrlParamsEntries(searchQuery: string, selectedSubject: string, sortBy: string)
    ensures var params := UrlParams(searchQuery, selectedSubject, sortBy);
      forall k :: 0 <= k < |params| ==> params[k].0 in {"query", "subject", "sort"} && params[k].1 != ""
  {
    var q: SearchParams := if searchQuery != "" then [("query", searchQuery)] else [];
    var sub: SearchParams := if selectedSubject != "" then [("subject", selectedSubject)] else [];
    var srt: SearchParams := if sortBy != "" then [("sort", sortBy)] else [];
    var params := q + sub + srt;
    assert UrlParams(searchQuery, selectedSubject, sortBy) == params;
    forall k | 0 <= k < |params| ensures params[k].0 in {"query", "subject", "sort"} && params[k].1 != "" {
      if k < |q| {
        assert params[k] == q[k];
      } else if k < |q| + |sub| {
        assert params[k] == sub[k - |q|];
      } else {
        assert params[k] == srt[k - |q| - |sub|];
      }
    }
  }

  /** Looking up a key in two parameter lists one after the other: the first list wins. */
  lemma {:induction false} GetConcat(a: SearchParams, b: SearchParams, key: string)
    ensures Get(a + b, key) == if Get(a, key).Some? then Get(a, key) else Get(b, key)
  {
    if a != [] {
      GetConcat(a[1..], b, key);
      assert (a + b)[1..] == a[1..] + b;
    } else {
      assert a + b == b;
    }
  }

  /** Lines 28-36: the initial filter state read from the URL, with `recent` as the default ordering. */
  function InitialQuery(params: SearchParams): string {
    Get(params, "query").GetOr("")
  }

  function InitialSubject(params: SearchParams): string {
    Get(params, "subject").GetOr("")
  }

  function InitialSort(params: SearchParams): (r: string)
    ensures r != ""
    ensures Get(params, "sort").None? ==> r == "recent"
  {
    var s := Get(params, "sort").GetOr("");
    if s != "" then s else "recent"
  }

  /**
   * Reloading the page restores its filters: the state read back from the
   * parameters the page wrote is the state it had, except that an empty
   * ordering comes back as `recent`.
   */
  lemma UrlRoundTrip(searchQuery: string, selectedSubject: string, sortBy: string)
    ensures var params := UrlParams(searchQuery, selectedSubject, sortBy);
      && InitialQuery(params) == searchQuery
      && InitialSubject(params) == selectedSubject
      && InitialSort(params) == if sortBy != "" then sortBy else "recent"
  {
    UrlParamsLookup(searchQuery, selectedSubject, sortBy);
  }

  /** The state of the list page. */
  class NotesView {
    var notes: seq<Note>
    var subjects: seq<Subject>
    var filteredNotes: seq<Note>
    var isLoading: bool
    var searchQuery: string
    var selectedSubject: string
    var sortBy: string
    var params: SearchParams

    /** Mounting the page with the given URL parameters. */
    constructor (url: SearchParams)
      ensures searchQuery == InitialQuery(url)
      ensures selectedSubject == InitialSubject(url)
      ensures sortBy == InitialSort(url)
      ensures params == url
      ensures notes == [] && subjects == [] && filteredNotes == [] && isLoading
    {
      notes, subjects, filteredNotes := [], [], [];
      isLoading := true;
      searchQuery := InitialQuery(url);
      selectedSubject := InitialSubject(url);
      sortBy := InitialSort(url);
      params := url;
    }

    /**
     * Lines 40-58 with both fetches as one outcome: on success the notes and
     * subjects are stored; a failure stores nothing. Loading ends either way.
     */
    method Load(fetched: Result<(seq<Note>, seq<Subject>), string>)
      modifies this
      ensures fetched.Ok? ==> notes == fetched.value.0 && subjects == fetched.value.1
      ensures fetched.Err? ==> notes == old(notes) && subjects == old(subjects)
      ensures !isLoading
      ensures filteredNotes == old(filteredNotes) && params == old(params)
      ensures searchQuery == old(searchQuery) && selectedSubject == old(selectedSubject) && sortBy == old(sortBy)
    {
      if fetched.Ok? {
        notes := fetched.value.0;
        subjects := fetched.value.1;
      }
      isLoading := false;
    }

    /** Lines 60-98: the effect that derives the shown notes from the notes and the filters. */
    method ApplyFilters()
      modifies this
      ensures filteredNotes == Shown(notes, searchQuery, selectedSubject, sortBy)
      ensures notes == old(notes) && subjects == old(subjects) && isLoading == old(isLoading) && params == old(params)
      ensures searchQuery == old(searchQuery) && selectedSubject == old(selectedSubject) && sortBy == old(sortBy)
    {
      filteredNotes := FilterAndSort(notes, searchQuery, selectedSubject, sortBy);
    }

    /** Lines 100-106: the effect that writes the filters into the URL parameters. */
    method SyncParams()
      modifies this
      ensures params == UrlParams(searchQuery, selectedSubject, sortBy)
      ensures notes == old(notes) && subjects == old(subjects) && isLoading == old(isLoading)
      ensures filteredNotes == old(filteredNotes)
      ensures searchQuery == old(searchQuery) && selectedSubject == old(selectedSubject) && sortBy == old(sortBy)
    {
      params := UrlParams(searchQuery, selectedSubject, sortBy);
    }

    /** Lines 60-106: both effects run after a change of the notes or the filters. */
    method Refresh()
      modifies this
      ensures filteredNotes == Shown(notes, searchQuery, selectedSubject, sortBy)
      ensures params == UrlParams(searchQuery, selectedSubject, sortBy)
      ensures notes == old(notes) && subjects == old(subjects) && isLoading == old(isLoading)
      ensures searchQuery == old(searchQuery) && selectedSubject == old(selectedSubject) && sortBy == old(sortBy)
    {
      ApplyFilters();
      SyncParams();
    }

    /** Lines 113-118: back to no query, no subject and the `recent` ordering, with empty URL parameters. */
    method ClearFilters()
      modifies this
      ensures searchQuery == "" && selectedSubject == "" && sortBy == "recent" && params == []
      ensures notes == old(notes) && subjects == old(subjects) && filteredNotes == old(filteredNotes)
      ensures isLoading == old(isLoading)
    {
      searchQuery := "";
      selectedSubject := "";
      sortBy := "recent";
      params := [];
    }
  }

  /** After clearing, the next refresh shows every note, newest first. */
  lemma ClearedShowsAllNewestFirst(notes: seq<Note>)
    ensures Shown(notes, "", "", "recent") == StableSort(notes, Recent)
    ensures multiset(Shown(notes, "", "", "recent")) == multiset(notes)
  {
    StableSortCorrect(notes, Recent);
  }
}
