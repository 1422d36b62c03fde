/**
 * The profile page (src/pages/Profile.tsx): the signed-in user's own notes and
 * the log-out button. Navigation is the `location` field.
 */
module ProfilePage {
  import opened Wrappers
  import opened Types
  import opened Seqs

  function ByAuthor(userId: string): Note -> bool {
    (n: Note) => n.user.id == userId
  }

  /** Lines 50-52: the notes written by that user, in fetched order. */
  function OwnNotes(allNotes: seq<Note>, userId: string): (r: seq<Note>)
    ensures forall k :: 0 <= k < |r| ==> r[k].user.id == userId
    ensures forall n :: multiset(r)[n] == if n.user.id == userId then multiset(allNotes)[n] else 0
    ensures IsSubsequence(r, allNotes)
  {
    FilterIsSubsequence(allNotes, ByAuthor(userId));
    Filter(allNotes, ByAuthor(userId))
  }

  /** A note is listed exactly when it was fetched and its author has the user's id. */
  lemma OwnNotesMembership(allNotes: seq<Note>, userId: string, n: Note)
    ensures n in OwnNotes(allNotes, userId) <==> n in allNotes && n.user.id == userId
  {
    FilterMembership(allNotes, ByAuthor(userId), n);
  }

  /** When every fetched note is the user's own, all of them are listed, in order. */
  lemma OwnNotesAll(allNotes: seq<Note>, userId: string)
    requires forall k :: 0 <= k < |allNotes| ==> allNotes[k].user.id == userId
    ensures OwnNotes(allNotes, userId) == allNotes
  {
    FilterKeepsAll(allNotes, ByAuthor(userId));
  }

  /** The state of the profile page. */
  class ProfileView {
    var user: Option<User>
    var userNotes: seq<Note>
    var isLoading: bool
    var isLoggingOut: bool
    var location: string

    constructor (path: string)
      ensures user == None && userNotes == [] && isLoading && !isLoggingOut && location == path
    {
      user, userNotes, isLoading, isLoggingOut, location := None, [], true, false, path;
    }

    /** Line 285: the "Notes Shared" figure. */
    function NotesShared(): (count: nat)
      reads this
      ensures count == |userNotes|
    {
      |userNotes|
    }

    /**
     * Lines 31-68. `current` is the outcome of asking for the current user and
     * `fetched` that of the later fetch of all notes. Without a user the page
     * moves to the login page and fetches nothing. With one, the user is set
     * first, so a failing note fetch leaves the user set and the notes as
     * they were. Loading ends in every case.
     */
    method CheckAuth(current: Result<Option<User>, string>, fetched: Result<seq<Note>, string>)
      modifies this
      ensures current == Ok(None) ==> location == "/login" && user == old(user) && userNotes == old(userNotes)
      ensures current.Err? ==> location == old(location) && user == old(user) && userNotes == old(userNotes)
      ensures current.Ok? && current.value.Some? ==>
        && user == current.value
        && location == old(location)
        && userNotes == (if fetched.Ok? then OwnNotes(fetched.value, current.value.value.id) else old(userNotes))
      ensures !isLoading && isLoggingOut == old(isLoggingOut)
    {
      if current.Ok? {
        match current.value {
          case None =>
            location := "/login";
          case Some(u) =>
            user := Some(u);
            if fetched.Ok? {
              userNotes := OwnNotes(fetched.value, u.id);
            }
        }
      }
      isLoading := false;
    }

    /**
     * Lines 70-91: the button stays disabled after a successful log-out,
     * which moves to the home page; a failure enables it again.
     */
    method HandleLogout(succeeded: bool)
      modifies this
      ensures succeeded ==> isLoggingOut && location == "/"
      ensures !succeeded ==> !isLoggingOut && location == old(location)
      ensures user == old(user) && userNotes == old(userNotes) && isLoading == old(isLoading)
    {
      isLoggingOut := true;
      if succeeded {
        location := "/";
      } else {
        isLoggingOut := false;
      }
    }
  }
}
