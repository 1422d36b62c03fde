/**
 * `POST /comments` (src/main/java/com/studynotes/api/controller/CommentController.java):
 * a known user comments on a known note.
 */
module CommentController {
  import opened Wrappers
  import opened Types
  import opened NoteEntity
  import opened Repositories

  /** Lines 42-46: the user is looked up before the note. */
  function CommentError(userFound: bool, noteFound: bool, noteId: string): (error: Option<string>)
    ensures error.None? <==> userFound && noteFound
    ensures !userFound ==> error == Some(UserNotFound)
    ensures userFound && !noteFound ==> error == Some(NoteNotFound(noteId))
  {
    if !userFound then Some(UserNotFound)
    else if !noteFound then Some(NoteNotFound(noteId))
    else None
  }

  /** Lines 48-54: the row saved for the comment. */
  function CommentRowFor(id: string, text: string, now: int, userId: string, noteId: string): (c: CommentRow)
    ensures c.id == id && c.text == text && c.date == now && c.userId == userId && c.noteId == noteId
  {
    CommentRow(id, text, now, userId, noteId)
  }

  /** A new comment joins its note's comment set, so the note's comment count grows by one. */
  lemma NewCommentCounts(comments: map<string, CommentRow>, text: string, now: int, userId: string, noteId: string, freshId: string)
    requires freshId !in comments && CommentsKeyed(comments)
    ensures var c := CommentRowFor(freshId, text, now, userId, noteId);
      && CommentsIn(comments[freshId := c], noteId) == CommentsIn(comments, noteId) + {c}
      && CommentCount(CommentsIn(comments[freshId := c], noteId)) == CommentCount(CommentsIn(comments, noteId)) + 1
  {
    var c := CommentRowFor(freshId, text, now, userId, noteId);
    var after := CommentsIn(comments[freshId := c], noteId);
    var before := CommentsIn(comments, noteId);
    assert c !in before;
    assert after == before + {c} by {
      forall x | x in after ensures x in before + {c} {
        var j :| j in comments[freshId := c] && comments[freshId := c][j] == x;
      }
      forall x | x in before ensures x in after {
        var j :| j in comments && comments[j] == x;
        assert comments[freshId := c][j] == x;
      }
      assert comments[freshId := c][freshId] == c;
    }
  }

  /** The comments of every other note are untouched. */
  lemma NewCommentLeavesOtherNotes(comments: map<string, CommentRow>, text: string, now: int, userId: string, noteId: string, freshId: string, other: string)
    requires freshId !in comments && other != noteId
    ensures CommentsIn(comments[freshId := CommentRowFor(freshId, text, now, userId, noteId)], other) == CommentsIn(comments, other)
  {
    var c := CommentRowFor(freshId, text, now, userId, noteId);
    var after := CommentsIn(comments[freshId := c], other);
    forall x | x in after ensures x in CommentsIn(comments, other) {
      var j :| j in comments[freshId := c] && comments[freshId := c][j] == x;
    }
    forall x | x in CommentsIn(comments, other) ensures x in after {
      var j :| j in comments && comments[j] == x;
      assert comments[freshId := c][j] == x;
    }
  }

  /**
   * Lines 35-63. `callerId` is the authenticated user's id, `now` the
   * server's clock and `freshId` the id the database would assign. Nothing
   * is saved when a lookup fails; otherwise exactly one comment is added and
   * the reply carries its id, text, date and the caller's user data.
   */
  method AddComment(store: Store, callerId: string, noteId: string, text: string, now: int, freshId: string)
    returns (result: Result<Comment, string>)
    requires store.Valid() && freshId !in store.comments
    modifies store
    ensures store.Valid()
    ensures store.users == old(store.users) && store.subjects == old(store.subjects)
    ensures store.notes == old(store.notes) && store.noteOrder == old(store.noteOrder)
    ensures store.ratings == old(store.ratings) && store.storedFiles == old(store.storedFiles)
    ensures var error := CommentError(callerId in old(store.users), noteId in old(store.notes), noteId);
      && (error.Some? ==> result == Err(error.value) && store.comments == old(store.comments))
      && (error.None? ==> store.comments == old(store.comments)[freshId := CommentRowFor(freshId, text, now, callerId, noteId)])
      && (error.None? ==> result == Ok(Comment(freshId, text, now, UserDto(store.users[callerId]))))
  {
    var error := CommentError(callerId in store.users, noteId in store.notes, noteId);
    if error.Some? {
      return Err(error.value);
    }
    var user := store.users[callerId];
    store.comments := store.comments[freshId := CommentRowFor(freshId, text, now, callerId, noteId)];
    result := Ok(Comment(freshId, text, now, UserDto(user)));
  }
}
