/**
 * The server's repositories (src/main/java/com/studynotes/api/repository/)
 * as one store of maps from key to row. `findAll` on notes returns them in
 * `noteOrder`; the other repositories are only looked up by key, or, for
 * ratings, by the (user, note) pair.
 */
module Repositories {
  import opened Wrappers
  import opened Types
  import opened NoteEntity

  class Store {
    var users: map<string, Account>
    var subjects: map<string, Subject>
    var notes: map<string, NoteRow>
    var noteOrder: seq<string>
    var ratings: map<string, RatingRow>
    var comments: map<string, CommentRow>
    /** The files handed to the file storage service, oldest first. */
    var storedFiles: seq<File>

    /** An empty database. */
    constructor ()
      ensures users == map[] && subjects == map[] && notes == map[] && noteOrder == []
      ensures ratings == map[] && comments == map[] && storedFiles == []
      ensures Valid()
    {
      users, subjects, notes, noteOrder := map[], map[], map[], [];
      ratings, comments, storedFiles := map[], map[], [];
    }

    ghost predicate Valid()
      reads this
    {
      && UsersKeyed(users) && SubjectsKeyed(subjects) && NotesKeyed(notes)
      && RatingsKeyed(ratings) && CommentsKeyed(comments)
      && OrderLists(noteOrder, notes)
      && NotesRefer(notes, users, subjects) && RatingsRefer(ratings, users, notes) && CommentsRefer(comments, users, notes)
      && OneRatingPerPairIn(ratings) && RatingsInRange(ratings)
    }
  }

  /** The `ratings` set of a note (Note.java line 47): every rating whose note column names it. */
  function RatingsIn(ratings: map<string, RatingRow>, noteId: string): (r: set<RatingRow>)
    ensures forall x :: x in r <==> x in ratings.Values && x.noteId == noteId
  {
    set x | x in ratings.Values && x.noteId == noteId
  }

  /** The `comments` set of a note (Note.java line 44). */
  function CommentsIn(comments: map<string, CommentRow>, noteId: string): (r: set<CommentRow>)
    ensures forall x :: x in r <==> x in comments.Values && x.noteId == noteId
  {
    set x | x in comments.Values && x.noteId == noteId
  }

  /** The messages of the lookups that fail. */
  const UserNotFound: string := "User not found"

  function NoteNotFound(id: string): string {
    "Note not found with id: " + id
  }

  function SubjectNotFound(code: string): string {
    "Subject not found with code: " + code
  }

  /** Every row is stored under its own key. */
  ghost predicate UsersKeyed(users: map<string, Account>) {
    forall k :: k in users ==> users[k].id == k
  }

  ghost predicate SubjectsKeyed(subjects: map<string, Subject>) {
    forall k :: k in subjects ==> subjects[k].code == k
  }

  ghost predicate NotesKeyed(notes: map<string, NoteRow>) {
    forall k :: k in notes ==> notes[k].id == k
  }

  ghost predicate RatingsKeyed(ratings: map<string, RatingRow>) {
    forall k :: k in ratings ==> ratings[k].id == k
  }

  ghost predicate CommentsKeyed(comments: map<string, CommentRow>) {
    forall k :: k in comments ==> comments[k].id == k
  }

  /** `findAll` lists every note exactly once. */
  ghost predicate OrderLists(noteOrder: seq<string>, notes: map<string, NoteRow>) {
    && (forall i, j :: 0 <= i < j < |noteOrder| ==> noteOrder[i] != noteOrder[j])
    && (forall i :: 0 <= i < |noteOrder| ==> noteOrder[i] in notes)
    && (forall k :: k in notes ==> k in noteOrder)
  }

  /** Every join column names a stored row. */
  ghost predicate NotesRefer(notes: map<string, NoteRow>, users: map<string, Account>, subjects: map<string, Subject>) {
    forall k :: k in notes ==> notes[k].userId in users && notes[k].subjectCode in subjects
  }

  ghost predicate RatingsRefer(ratings: map<string, RatingRow>, users: map<string, Account>, notes: map<string, NoteRow>) {
    forall k :: k in ratings ==> ratings[k].userId in users && ratings[k].noteId in notes
  }

  ghost predicate CommentsRefer(comments: map<string, CommentRow>, users: map<string, Account>, notes: map<string, NoteRow>) {
    forall k :: k in comments ==> comments[k].userId in users && comments[k].noteId in notes
  }

  /** Every stored rating value is one of the accepted 1..5. */
  ghost predicate RatingsInRange(ratings: map<string, RatingRow>) {
    forall k :: k in ratings ==> 1 <= ratings[k].value <= 5
  }

  /** No two ratings share both the user and the note. */
  ghost predicate OneRatingPerPairIn(ratings: map<string, RatingRow>) {
    forall a, b :: a in ratings && b in ratings && ratings[a].userId == ratings[b].userId && ratings[a].noteId == ratings[b].noteId ==> a == b
  }
}
