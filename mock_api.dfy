/**
 * The client's mock access layer (src/utils/api.ts): a fixed list of subjects
 * and users, the notes generated at start-up, and the session token the
 * browser keeps under `auth-token`. Each call is one atomic step; the
 * artificial delays are not modelled. Values the mock draws from the clock or
 * from `Math.random` (new ids, dates, the generated notes, comments and
 * ratings) are parameters.
 */
module MockApi {
  import opened Wrappers
  import opened Types
  import opened Text
  import opened Seqs

  /** Lines 5-14. */
  const Subjects: seq<Subject> := [
    Subject("CS101", "Introduction to Computer Science", 1, 1),
    Subject("MATH201", "Calculus", 2, 1),
    Subject("PHYS101", "Physics I", 1, 2),
    Subject("ENG102", "English Composition", 1, 1),
    Subject("BIO101", "Biology", 1, 1),
    Subject("CHEM101", "Chemistry", 1, 2),
    Subject("HIST101", "World History", 1, 2),
    Subject("ECON201", "Microeconomics", 2, 1)
  ]

  /** Lines 16-21. */
  const Users: seq<User> := [
    User("1", "John Smith", "john@example.com"),
    User("2", "Emma Johnson", "emma@example.com"),
    User("3", "Michael Brown", "michael@example.com"),
    User("4", "Sophia Williams", "sophia@example.com")
  ]

  /** The only token the mock hands out. */
  const MockToken: string := "mock-jwt-token"

  const MissingFields: string := "Email and password are required"
  const InvalidCredentials: string := "Invalid credentials"
  const EmailTaken: string := "Email is already registered"

  function HasEmail(email: string): User -> bool {
    (u: User) => u.email == email
  }

  function HasCode(code: string): Subject -> bool {
    (s: Subject) => s.code == code
  }

  function HasId(id: string): Note -> bool {
    (n: Note) => n.id == id
  }

  function OfSubject(code: string): Note -> bool {
    (n: Note) => n.subject.code == code
  }

  /**
   * Lines 125-138 without the token write: both fields must be non-empty,
   * then the first user with that e-mail address is the one logged in. The
   * password is not compared with anything.
   */
  function LoginOutcome(email: string, password: string): (r: Result<User, string>)
    ensures r == Err(MissingFields) <==> email == "" || password == ""
    ensures r == Err(InvalidCredentials) <==>
      email != "" && password != "" && forall k :: 0 <= k < |Users| ==> Users[k].email != email
    ensures r.Ok? ==> r.value in Users && r.value.email == email
  {
    if email != "" && password != "" then
      match Find(Users, HasEmail(email))
      case Some(u) => Ok(u)
      case None => Err(InvalidCredentials)
    else
      Err(MissingFields)
  }

  /**
   * Lines 147-163 without the token write: an address some user already has
   * is refused; otherwise the new user gets the id `user-<n+1>` for `n` known
   * users. Name, address and password are not checked otherwise.
   */
  function RegisterOutcome(name: string, email: string, password: string): (r: Result<User, string>)
    ensures r.Err? <==> exists k :: 0 <= k < |Users| && Users[k].email == email
    ensures r.Err? ==> r.error == EmailTaken
    ensures r.Ok? ==> r.value == User("user-" + NatToString(|Users| + 1), name, email)
  {
    if Find(Users, HasEmail(email)).Some? then Err(EmailTaken)
    else Ok(User("user-" + NatToString(|Users| + 1), name, email))
  }

  /** The id registration hands out is `user-5`, which no known user has. */
  lemma RegisteredIdIsNew(name: string, email: string, password: string)
    requires RegisterOutcome(name, email, password).Ok?
    ensures RegisterOutcome(name, email, password).value.id == "user-5"
    ensures forall k :: 0 <= k < |Users| ==> Users[k].id != RegisterOutcome(name, email, password).value.id
  {
    assert NatToString(5) == "5";
  }

  /**
   * Registration stores no user, so an address that was free before is
   * still unknown to the login check: logging in with it fails even with a
   * password.
   */
  lemma RegisteredUserCannotLogIn(name: string, email: string, password: string)
    requires RegisterOutcome(name, email, password).Ok?
    requires email != "" && password != ""
    ensures LoginOutcome(email, password) == Err(InvalidCredentials)
  {
  }

  /** Lines 210-225: the uploaded note, filed under the first subject when the code is unknown. */
  function UploadedNote(name: string, subjectCode: string, fileName: string, fileType: string, now: nat): (n: Note)
    ensures n.subject == match Find(Subjects, HasCode(subjectCode)) case Some(s) => s case None => Subjects[0]
    ensures n.subject in Subjects
    ensures n.name == name && n.file == File(fileName, fileType, "#")
    ensures n.uploadDate == now && n.user == Users[0]
    ensures n.averageRating == 0.0 && n.commentCount == 0
    ensures n.id == "note-" + NatToString(now)
  {
    var subject := Find(Subjects, HasCode(subjectCode)).GetOr(Subjects[0]);
    Note("note-" + NatToString(now), name, File(fileName, fileType, "#"), now, Users[0], subject, 0.0, 0)
  }

  /** A known subject code files the note under that subject; any other code under CS101. */
  lemma UploadSubject(name: string, subjectCode: string, fileName: string, fileType: string, now: nat)
    ensures (exists k :: 0 <= k < |Subjects| && Subjects[k].code == subjectCode) ==>
      UploadedNote(name, subjectCode, fileName, fileType, now).subject.code == subjectCode
    ensures (forall k :: 0 <= k < |Subjects| ==> Subjects[k].code != subjectCode) ==>
      UploadedNote(name, subjectCode, fileName, fileType, now).subject.code == "CS101"
  {
  }

  /** Lines 180-185: a comment by the first user, stamped with the time of the call. */
  function NewComment(text: string, now: nat): (c: Comment)
    ensures c.text == text && c.date == now && c.user == Users[0]
    ensures c.id == "comment-" + NatToString(now)
  {
    Comment("comment-" + NatToString(now), text, now, Users[0])
  }

  /** Lines 195-200: a rating by the first user. The value is passed through unchecked. */
  function NewRating(value: int, now: nat): (r: Rating)
    ensures r.value == value && r.date == now && r.user == Users[0]
    ensures r.id == "rating-" + NatToString(now)
  {
    Rating("rating-" + NatToString(now), value, now, Users[0])
  }

  /** The mock back end: the generated notes and the stored session token. */
  class Api {
    const notes: seq<Note>
    var token: Option<string>

    constructor (generated: seq<Note>, stored: Option<string>)
      ensures notes == generated && token == stored
    {
      notes := generated;
      token := stored;
    }

    /** Line 68: the generated notes as they are stored. */
    function FetchNotes(): seq<Note> {
      notes
    }

    /** Line 104. */
    function FetchSubjects(): seq<Subject> {
      Subjects
    }

    /** Line 76: exactly the notes of that subject, in stored order. */
    function FetchNotesBySubject(subjectCode: string): (r: seq<Note>)
      ensures forall k :: 0 <= k < |r| ==> r[k].subject.code == subjectCode
      ensures forall n :: multiset(r)[n] == if n.subject.code == subjectCode then multiset(notes)[n] else 0
      ensures IsSubsequence(r, notes)
    {
      FilterIsSubsequence(notes, OfSubject(subjectCode));
      Filter(notes, OfSubject(subjectCode))
    }

    /**
     * Lines 84-96: the first note with that id together with the given
     * comments and ratings (which the mock makes up), or nothing.
     */
    function FetchNote(id: string, comments: seq<Comment>, ratings: seq<Rating>): (r: Option<NoteDetail>)
      ensures r.None? <==> forall k :: 0 <= k < |notes| ==> notes[k].id != id
      ensures r.Some? ==> r.value.note in notes && r.value.note.id == id
      ensures r.Some? ==> exists k :: 0 <= k < |notes| && notes[k] == r.value.note &&
                                      forall j :: 0 <= j < k ==> notes[j].id != id
      ensures r.Some? ==> r.value.comments == comments && r.value.ratings == ratings
    {
      match Find(notes, HasId(id))
      case None => None
      case Some(n) => Some(NoteDetail(n, comments, ratings))
    }

    /** Lines 111-118: nobody without a token (an empty one counts as none), else always the first user. */
    function FetchCurrentUser(): (r: Option<User>)
      reads this
      ensures r.None? <==> token.None? || token == Some("")
      ensures r.Some? ==> r.value == Users[0]
    {
      if token.None? || token.value == "" then None else Some(Users[0])
    }

    /** Lines 121-141: on success the token is stored; on either error it is left alone. */
    method LoginUser(email: string, password: string) returns (r: Result<(User, string), string>)
      modifies this
      ensures r == match LoginOutcome(email, password)
        case Ok(u) => Ok((u, MockToken))
        case Err(e) => Err(e)
      ensures token == if r.Ok? then Some(MockToken) else old(token)
      ensures r.Ok? ==> FetchCurrentUser() == Some(Users[0])
    {
      match LoginOutcome(email, password) {
        case Ok(u) =>
          token := Some(MockToken);
          r := Ok((u, MockToken));
        case Err(e) =>
          r := Err(e);
      }
    }

    /** Lines 143-166: a taken address leaves the token alone; otherwise it is stored. */
    method RegisterUser(name: string, email: string, password: string) returns (r: Result<(User, string), string>)
      modifies this
      ensures r == match RegisterOutcome(name, email, password)
        case Ok(u) => Ok((u, MockToken))
        case Err(e) => Err(e)
      ensures token == if r.Ok? then Some(MockToken) else old(token)
    {
      match RegisterOutcome(name, email, password) {
        case Ok(u) =>
          token := Some(MockToken);
          r := Ok((u, MockToken));
        case Err(e) =>
          r := Err(e);
      }
    }

    /** Lines 168-175. */
    method LogoutUser()
      modifies this
      ensures token == None
      ensures FetchCurrentUser() == None
    {
      token := None;
    }
  }

  /**
   * The session is not tied to the account: logging in as the second user
   * succeeds with that user, yet a session holding the token a login stores
   * reports the first user as the current one.
   */
  lemma CurrentUserIgnoresLogin(api: Api)
    requires api.token == Some(MockToken)
    ensures LoginOutcome("emma@example.com", "secret") == Ok(Users[1])
    ensures api.FetchCurrentUser() == Some(Users[0])
    ensures Users[1] != Users[0]
  {
    assert HasEmail("emma@example.com")(Users[0]) == false;
  }
}
