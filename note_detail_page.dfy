/**
 * The note detail page (src/pages/NoteDetail.tsx): how a submitted rating or
 * comment is folded into the note on screen without refetching it, the guards
 * that make a submission do nothing, and the choice of file icon.
 */
module NoteDetailPage {
  import opened Wrappers
  import opened Types
  import opened Text
  import opened Arith

  /** `ratings.reduce((sum, r) => sum + r.value, 0)`. */
  function SumValues(ratings: seq<Rating>): int {
    if ratings == [] then 0 else ratings[0].value + SumValues(ratings[1..])
  }

  /** The sum over ratings with one more at the end is the old sum plus its value. */
  lemma {:induction false} SumValuesAppend(ratings: seq<Rating>, r: Rating)
    ensures SumValues(ratings + [r]) == SumValues(ratings) + r.value
  {
    if ratings != [] {
      SumValuesAppend(ratings[1..], r);
      assert (ratings + [r])[1..] == ratings[1..] + [r];
    }
  }

  /** The arithmetic mean of the rating values. */
  function Mean(ratings: seq<Rating>): real
    requires ratings != []
  {
    SumValues(ratings) as real / |ratings| as real
  }

  /** The sum of values that all lie in `lo..hi` lies between `n*lo` and `n*hi`. */
  lemma {:induction false} SumValuesBounds(ratings: seq<Rating>, lo: int, hi: int)
    requires forall k :: 0 <= k < |ratings| ==> lo <= ratings[k].value <= hi
    ensures |ratings| * lo <= SumValues(ratings) <= |ratings| * hi
  {
    if ratings != [] {
      SumValuesBounds(ratings[1..], lo, hi);
      MulSucc(|ratings| - 1, lo);
      MulSucc(|ratings| - 1, hi);
    }
  }

  /** With every value in `lo..hi` (1..5 for accepted ratings), the mean is in `lo..hi` too. */
  lemma MeanBounds(ratings: seq<Rating>, lo: int, hi: int)
    requires ratings != []
    requires forall k :: 0 <= k < |ratings| ==> lo <= ratings[k].value <= hi
    ensures lo as real <= Mean(ratings) <= hi as real
  {
    SumValuesBounds(ratings, lo, hi);
    MeanBetween(SumValues(ratings), |ratings|, lo, hi);
  }

  /**
   * Lines 74-83: the note with `r` appended to its ratings and its average
   * recomputed over all of them.
   */
  function WithRating(d: NoteDetail, r: Rating): (e: NoteDetail)
    ensures e.ratings == d.ratings + [r]
    ensures e.note.averageRating * (|d.ratings| + 1) as real == (SumValues(d.ratings) + r.value) as real
    ensures e.note == d.note.(averageRating := e.note.averageRating)
    ensures e.comments == d.comments
  {
    var updated := d.ratings + [r];
    SumValuesAppend(d.ratings, r);
    NoteDetail(d.note.(averageRating := Mean(updated)), d.comments, updated)
  }

  /** Lines 113-118: the note with `c` in front of its comments and one more counted. */
  function WithComment(d: NoteDetail, c: Comment): (e: NoteDetail)
    ensures e.comments == [c] + d.comments
    ensures e.note.commentCount == d.note.commentCount + 1
    ensures e.note == d.note.(commentCount := e.note.commentCount)
    ensures e.ratings == d.ratings
  {
    NoteDetail(d.note.(commentCount := d.note.commentCount + 1), [c] + d.comments, d.ratings)
  }

  /** The derived fields agree with the lists: the average is their mean (0 when empty), the count their length. */
  predicate Consistent(d: NoteDetail) {
    && d.note.averageRating == (if d.ratings == [] then 0.0 else Mean(d.ratings))
    && d.note.commentCount == |d.comments|
  }

  /** After a rating the average is exactly the mean of the updated ratings. */
  lemma WithRatingIsMean(d: NoteDetail, r: Rating)
    ensures WithRating(d, r).note.averageRating == Mean(d.ratings + [r])
  {
  }

  /** Both updates keep a consistent note consistent. */
  lemma UpdatesPreserveConsistency(d: NoteDetail, r: Rating, c: Comment)
    requires Consistent(d)
    ensures Consistent(WithRating(d, r))
    ensures Consistent(WithComment(d, c))
  {
  }

  /**
   * The page does not replace an earlier rating by the same user: two
   * ratings by one user both stay, and the average counts both.
   */
  lemma NoDedupByUser(d: NoteDetail, r1: Rating, r2: Rating)
    requires r1.user == r2.user
    ensures WithRating(WithRating(d, r1), r2).ratings == d.ratings + [r1, r2]
    ensures |WithRating(WithRating(d, r1), r2).ratings| == |d.ratings| + 2
  {
    assert d.ratings + [r1] + [r2] == d.ratings + [r1, r2];
  }

  /** The icon shown for the attached file. */
  datatype FileIcon = NoFile | PdfIcon | WordIcon | PresentationIcon | GenericIcon

  /** Lines 151-163: the first of "pdf", "word", "presentation" found in the MIME type decides. */
  function IconFor(note: Option<NoteDetail>): (icon: FileIcon)
    ensures icon == NoFile <==> note.None?
    ensures icon == PdfIcon <==> note.Some? && Contains(note.value.note.file.fileType, "pdf")
    ensures icon == WordIcon <==>
      note.Some? && !Contains(note.value.note.file.fileType, "pdf") && Contains(note.value.note.file.fileType, "word")
    ensures icon == PresentationIcon <==>
      && note.Some?
      && !Contains(note.value.note.file.fileType, "pdf")
      && !Contains(note.value.note.file.fileType, "word")
      && Contains(note.value.note.file.fileType, "presentation")
  {
    match note
    case None => NoFile
    case Some(d) =>
      var t := d.note.file.fileType;
      if Contains(t, "pdf") then PdfIcon
      else if Contains(t, "word") then WordIcon
      else if Contains(t, "presentation") then PresentationIcon
      else GenericIcon
  }

  /** A Word document served with a MIME type that also names PDF gets the PDF icon: the first match wins. */
  lemma IconFirstMatchWins()
    ensures IconFor(Some(NoteDetail(Note("n", "x", File("f", "application/pdf+word", ""), 0,
      User("u", "U", "e"), Subject("c", "C", 1, 1), 0.0, 0), [], []))) == PdfIcon
  {
    assert OccursAt("application/pdf+word", "pdf", 12);
  }

  /** Line 105: a comment is sent only with an id, a non-blank text and a logged-in user. */
  predicate MaySubmitComment(id: Option<string>, text: string, isLoggedIn: bool) {
    id.Some? && Trim(text) != "" && isLoggedIn
  }

  /** The state of the detail page. `id` is the route parameter, absent when the route has none. */
  class NoteDetailView {
    var id: Option<string>
    var note: Option<NoteDetail>
    var isLoading: bool
    var commentText: string
    var isSubmittingComment: bool
    var isSubmittingRating: bool
    var isLoggedIn: bool

    constructor (routeId: Option<string>)
      ensures id == routeId && note == None && isLoading && commentText == ""
      ensures !isSubmittingComment && !isSubmittingRating && !isLoggedIn
    {
      id, note, isLoading, commentText := routeId, None, true, "";
      isSubmittingComment, isSubmittingRating, isLoggedIn := false, false, false;
    }

    /**
     * Lines 38-63. `fetched` is the outcome of fetching the note and the
     * current user together. Without an id nothing is fetched; loading ends
     * in every case, the early return included.
     */
    method Load(fetched: Result<(Option<NoteDetail>, Option<User>), string>)
      modifies this
      ensures id.Some? && fetched.Ok? ==> note == fetched.value.0 && isLoggedIn == fetched.value.1.Some?
      ensures id.None? || fetched.Err? ==> note == old(note) && isLoggedIn == old(isLoggedIn)
      ensures !isLoading
      ensures id == old(id) && commentText == old(commentText)
      ensures isSubmittingComment == old(isSubmittingComment) && isSubmittingRating == old(isSubmittingRating)
    {
      if id.Some? && fetched.Ok? {
        note := fetched.value.0;
        isLoggedIn := fetched.value.1.Some?;
      }
      isLoading := false;
    }

    /**
     * Lines 65-100. `reply` is what the rating request returned. Without an
     * id or while logged out nothing happens; a failed request leaves the
     * note as it was; a successful one folds the new rating into the note.
     */
    method HandleRatingChange(reply: Result<Rating, string>)
      modifies this
      ensures id.None? || !old(isLoggedIn) ==> note == old(note) && isSubmittingRating == old(isSubmittingRating)
      ensures id.Some? && old(isLoggedIn) ==> !isSubmittingRating
      ensures id.Some? && old(isLoggedIn) && reply.Ok? && old(note).Some? ==>
        note == Some(WithRating(old(note).value, reply.value))
      ensures reply.Err? || old(note).None? ==> note == old(note)
      ensures id == old(id) && isLoading == old(isLoading) && commentText == old(commentText)
      ensures isSubmittingComment == old(isSubmittingComment) && isLoggedIn == old(isLoggedIn)
    {
      if id.None? || !isLoggedIn {
        return;
      }
      isSubmittingRating := true;
      if reply.Ok? && note.Some? {
        note := Some(WithRating(note.value, reply.value));
      }
      isSubmittingRating := false;
    }

    /**
     * Lines 102-137. Nothing happens without an id, with a blank comment or
     * while logged out. A failed request keeps the note and the typed text; a
     * successful one adds the comment and clears the text.
     */
    method HandleCommentSubmit(reply: Result<Comment, string>)
      modifies this
      ensures !MaySubmitComment(id, old(commentText), old(isLoggedIn)) ==>
        note == old(note) && commentText == old(commentText) && isSubmittingComment == old(isSubmittingComment)
      ensures MaySubmitComment(id, old(commentText), old(isLoggedIn)) ==>
        && !isSubmittingComment
        && (reply.Ok? ==> commentText == "" && note == if old(note).Some? then Some(WithComment(old(note).value, reply.value)) else None)
        && (reply.Err? ==> commentText == old(commentText) && note == old(note))
      ensures id == old(id) && isLoading == old(isLoading) && isLoggedIn == old(isLoggedIn)
      ensures isSubmittingRating == old(isSubmittingRating)
    {
      if !MaySubmitComment(id, commentText, isLoggedIn) {
        return;
      }
      isSubmittingComment := true;
      if reply.Ok? {
        if note.Some? {
          note := Some(WithComment(note.value, reply.value));
        }
        commentText := "";
      }
      isSubmittingComment := false;
    }
  }

  /** A comment of white space only is never submitted; any other text is, given an id and a login. */
  lemma BlankCommentIgnored(id: Option<string>, text: string, isLoggedIn: bool)
    ensures MaySubmitComment(id, text, isLoggedIn) <==> id.Some? && !IsBlank(text) && isLoggedIn
  {
    TrimEmptyIffBlank(text);
  }
}
