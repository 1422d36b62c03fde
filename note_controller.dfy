/**
 * `/notes` (src/main/java/com/studynotes/api/controller/NoteController.java):
 * listing, optionally by subject; one note with its comments and ratings;
 * and uploading a note. Every reply is built from the stored rows by the
 * DTO conversions.
 */
module NoteController {
  import opened Wrappers
  import opened Types
  import opened Seqs
  import opened NoteEntity
  import opened Repositories

  /** Lines 92-118: the DTO of a stored note, with its derived average and comment count. */
  ghost function NoteDtoOf(store: Store, id: string): (dto: Note)
    reads store
    requires store.Valid() && id in store.notes
    ensures var row := store.notes[id];
      && dto.id == id && dto.name == row.name && dto.file == row.file && dto.uploadDate == row.uploadDate
      && dto.user == UserDto(store.users[row.userId])
      && dto.subject == store.subjects[row.subjectCode]
      && dto.averageRating == AverageRating(RatingsIn(store.ratings, id))
      && dto.commentCount == CommentCount(CommentsIn(store.comments, id))
  {
    var row := store.notes[id];
    Note(id, row.name, row.file, row.uploadDate, UserDto(store.users[row.userId]), store.subjects[row.subjectCode],
         AverageRating(RatingsIn(store.ratings, id)), CommentCount(CommentsIn(store.comments, id)))
  }

  /**
   * A listed average is 0 for a note nobody rated and otherwise lies in
   * 1..5, because only accepted values are ever stored.
   */
  lemma NoteDtoAverageInRange(store: Store, id: string)
    requires store.Valid() && id in store.notes
    ensures RatingsIn(store.ratings, id) == {} ==> NoteDtoOf(store, id).averageRating == 0.0
    ensures RatingsIn(store.ratings, id) != {} ==> 1.0 <= NoteDtoOf(store, id).averageRating <= 5.0
  {
    var rows := RatingsIn(store.ratings, id);
    forall r | r in rows ensures 1 <= r.value <= 5 {
      var j :| j in store.ratings && store.ratings[j] == r;
    }
    if rows != {} {
      AverageBounds(rows, 1, 5);
    }
  }

  /** Lines 124-131: a comment's DTO, with its author's user data. */
  function CommentDtoOf(c: CommentRow, users: map<string, Account>): (d: Comment)
    requires c.userId in users
    ensures d.id == c.id && d.text == c.text && d.date == c.date && d.user == UserDto(users[c.userId])
  {
    Comment(c.id, c.text, c.date, UserDto(users[c.userId]))
  }

  /** Lines 135-142: a rating's DTO, with its author's user data. */
  function RatingDtoOf(r: RatingRow, users: map<string, Account>): (d: Rating)
    requires r.userId in users
    ensures d.id == r.id && d.value == r.value && d.date == r.date && d.user == UserDto(users[r.userId])
  {
    Rating(r.id, r.value, r.date, UserDto(users[r.userId]))
  }

  ghost predicate IsCommentDtoOf(d: Comment, rows: set<CommentRow>, users: map<string, Account>) {
    exists c :: c in rows && c.userId in users && d == CommentDtoOf(c, users)
  }

  ghost predicate IsRatingDtoOf(d: Rating, rows: set<RatingRow>, users: map<string, Account>) {
    exists r :: r in rows && r.userId in users && d == RatingDtoOf(r, users)
  }

  /** The note ids `findAll` or `findBySubjectCode` return, in the repository's order. */
  function ListedIds(noteOrder: seq<string>, notes: map<string, NoteRow>, subject: Option<string>): (ids: seq<string>)
    ensures subject.None? || subject == Some("") ==> ids == noteOrder
    ensures subject.Some? && subject.value != "" ==> ids == Filter(noteOrder, WithSubject(notes, subject.value))
    ensures IsSubsequence(ids, noteOrder)
  {
    FilterIsSubsequence(noteOrder, WithSubject(notes, subject.GetOr("")));
    SubsequenceOfItself(noteOrder);
    if subject.None? || subject.value == "" then noteOrder
    else Filter(noteOrder, WithSubject(notes, subject.value))
  }

  function WithSubject(notes: map<string, NoteRow>, code: string): string -> bool {
    (id: string) => id in notes && notes[id].subjectCode == code
  }

  /**
   * Lines 42-46: with a subject code, a note is listed exactly when it is
   * stored with that code; without one (null or empty), every stored note is.
   */
  lemma ListedMembership(noteOrder: seq<string>, notes: map<string, NoteRow>, subject: Option<string>, id: string)
    requires OrderLists(noteOrder, notes)
    ensures subject.None? || subject == Some("") ==> (id in ListedIds(noteOrder, notes, subject) <==> id in notes)
    ensures subject.Some? && subject.value != "" ==>
      (id in ListedIds(noteOrder, notes, subject) <==> id in notes && notes[id].subjectCode == subject.value)
  {
    FilterMembership(noteOrder, WithSubject(notes, subject.GetOr("")), id);
  }

  /** Lines 92-118, computing the average one rating at a time. */
  method ConvertToDto(store: Store, id: string) returns (dto: Note)
    requires store.Valid() && id in store.notes
    ensures dto == NoteDtoOf(store, id)
  {
    var row := store.notes[id];
    var average := ComputeAverage(RatingsIn(store.ratings, id));
    dto := Note(id, row.name, row.file, row.uploadDate, UserDto(store.users[row.userId]), store.subjects[row.subjectCode],
                average, CommentCount(CommentsIn(store.comments, id)));
  }

  /** Lines 48-50: one DTO per listed note, in the same order. */
  method GetAllNotes(store: Store, subject: Option<string>) returns (dtos: seq<Note>)
    requires store.Valid()
    ensures var ids := ListedIds(store.noteOrder, store.notes, subject);
      && |dtos| == |ids|
      && forall k :: 0 <= k < |ids| ==> ids[k] in store.notes && dtos[k] == NoteDtoOf(store, ids[k])
  {
    var ids := ListedIds(store.noteOrder, store.notes, subject);
    FilterMembershipAll(store.noteOrder, store.notes, subject);
    dtos := NoteDtos(store, ids);
  }

  /** The `map(this::convertToDto)` of line 49: one DTO per id, in the same order. */
  method NoteDtos(store: Store, ids: seq<string>) returns (dtos: seq<Note>)
    requires store.Valid() && forall k :: 0 <= k < |ids| ==> ids[k] in store.notes
    ensures |dtos| == |ids|
    ensures forall k :: 0 <= k < |ids| ==> dtos[k] == NoteDtoOf(store, ids[k])
  {
    dtos := [];
    var i := 0;
    while i < |ids|
      invariant 0 <= i <= |ids|
      invariant |dtos| == i
      invariant forall k :: 0 <= k < i ==> dtos[k] == NoteDtoOf(store, ids[k])
    {
      var dto := ConvertToDto(store, ids[i]);
      ghost var before := dtos;
      dtos := dtos + [dto];
      assert forall k :: 0 <= k < i ==> dtos[k] == before[k];
      i := i + 1;
    }
  }

  /** Every listed id names a stored note. */
  lemma FilterMembershipAll(noteOrder: seq<string>, notes: map<string, NoteRow>, subject: Option<string>)
    requires OrderLists(noteOrder, notes)
    ensures forall k :: 0 <= k < |ListedIds(noteOrder, notes, subject)| ==> ListedIds(noteOrder, notes, subject)[k] in notes
  {
    var ids := ListedIds(noteOrder, notes, subject);
    forall k | 0 <= k < |ids| ensures ids[k] in notes {
      ListedMembership(noteOrder, notes, subject, ids[k]);
    }
  }

  /** Lines 123-132: the DTOs of the note's comments, one per comment, in the set's iteration order. */
  method CommentDtos(store: Store, id: string) returns (dtos: seq<Comment>)
    requires store.Valid()
    ensures var rows := CommentsIn(store.comments, id);
      && |dtos| == |rows|
      && (forall k :: 0 <= k < |dtos| ==> IsCommentDtoOf(dtos[k], rows, store.users))
      && (forall c :: c in rows ==> c.userId in store.users && CommentDtoOf(c, store.users) in dtos)
  {
    var rows := CommentsIn(store.comments, id);
    forall c | c in rows ensures c.userId in store.users {
      var j :| j in store.comments && store.comments[j] == c;
    }
    dtos := CommentDtosOf(rows, store.users);
  }

  /** The comment mapping of lines 124-131 over the rows of one note. */
  method CommentDtosOf(rows: set<CommentRow>, users: map<string, Account>) returns (dtos: seq<Comment>)
    requires forall c :: c in rows ==> c.userId in users
    ensures |dtos| == |rows|
    ensures forall k :: 0 <= k < |dtos| ==> IsCommentDtoOf(dtos[k], rows, users)
    ensures forall c :: c in rows ==> CommentDtoOf(c, users) in dtos
  {
    var rest := rows;
    dtos := [];
    while rest != {}
      invariant rest <= rows
      invariant |dtos| + |rest| == |rows|
      invariant forall k :: 0 <= k < |dtos| ==> IsCommentDtoOf(dtos[k], rows, users)
      invariant forall c :: c in rows - rest ==> CommentDtoOf(c, users) in dtos
      decreases |rest|
    {
      var c :| c in rest;
      dtos := dtos + [CommentDtoOf(c, users)];
      rest := rest - {c};
    }
  }

  /** Lines 134-143: the DTOs of the note's ratings, one per rating. */
  method RatingDtos(store: Store, id: string) returns (dtos: seq<Rating>)
    requires store.Valid()
    ensures var rows := RatingsIn(store.ratings, id);
      && |dtos| == |rows|
      && (forall k :: 0 <= k < |dtos| ==> IsRatingDtoOf(dtos[k], rows, store.users))
      && (forall r :: r in rows ==> r.userId in store.users && RatingDtoOf(r, store.users) in dtos)
  {
    var rows := RatingsIn(store.ratings, id);
    forall r | r in rows ensures r.userId in store.users {
      var j :| j in store.ratings && store.ratings[j] == r;
    }
    dtos := RatingDtosOf(rows, store.users);
  }

  /** The rating mapping of lines 135-142 over the rows of one note. */
  method RatingDtosOf(rows: set<RatingRow>, users: map<string, Account>) returns (dtos: seq<Rating>)
    requires forall r :: r in rows ==> r.userId in users
    ensures |dtos| == |rows|
    ensures forall k :: 0 <= k < |dtos| ==> IsRatingDtoOf(dtos[k], rows, users)
    ensures forall r :: r in rows ==> RatingDtoOf(r, users) in dtos
  {
    var rest := rows;
    dtos := [];
    while rest != {}
      invariant rest <= rows
      invariant |dtos| + |rest| == |rows|
      invariant forall k :: 0 <= k < |dtos| ==> IsRatingDtoOf(dtos[k], rows, users)
      invariant forall r :: r in rows - rest ==> RatingDtoOf(r, users) in dtos
      decreases |rest|
    {
      var r :| r in rest;
      dtos := dtos + [RatingDtoOf(r, users)];
      rest := rest - {r};
    }
  }

  /** Lines 120-157: the note's DTO fields, then its comments and ratings. */
  method ConvertToDetailDto(store: Store, id: string) returns (detail: NoteDetail)
    requires store.Valid() && id in store.notes
    ensures detail.note == NoteDtoOf(store, id)
    ensures |detail.comments| == |CommentsIn(store.comments, id)| == detail.note.commentCount
    ensures forall k :: 0 <= k < |detail.comments| ==> IsCommentDtoOf(detail.comments[k], CommentsIn(store.comments, id), store.users)
    ensures forall c :: c in CommentsIn(store.comments, id) ==> c.userId in store.users && CommentDtoOf(c, store.users) in detail.comments
    ensures |detail.ratings| == |RatingsIn(store.ratings, id)|
    ensures forall k :: 0 <= k < |detail.ratings| ==> IsRatingDtoOf(detail.ratings[k], RatingsIn(store.ratings, id), store.users)
    ensures forall r :: r in RatingsIn(store.ratings, id) ==> r.userId in store.users && RatingDtoOf(r, store.users) in detail.ratings
  {
    var dto := ConvertToDto(store, id);
    var comments := CommentDtos(store, id);
    var ratings := RatingDtos(store, id);
    detail := NoteDetail(dto, comments, ratings);
  }

  /** Lines 55-63: an unknown id fails; a known one gets its detail DTO. */
  method GetNoteById(store: Store, id: string) returns (result: Result<NoteDetail, string>)
    requires store.Valid()
    ensures result.Err? <==> id !in store.notes
    ensures result.Err? ==> result.error == NoteNotFound(id)
    ensures result.Ok? ==> result.value.note == NoteDtoOf(store, id)
    ensures result.Ok? ==> |result.value.comments| == |CommentsIn(store.comments, id)| == result.value.note.commentCount
    ensures result.Ok? ==> forall k :: 0 <= k < |result.value.comments| ==>
      IsCommentDtoOf(result.value.comments[k], CommentsIn(store.comments, id), store.users)
    ensures result.Ok? ==> forall c :: c in CommentsIn(store.comments, id) ==>
      c.userId in store.users && CommentDtoOf(c, store.users) in result.value.comments
    ensures result.Ok? ==> |result.value.ratings| == |RatingsIn(store.ratings, id)|
    ensures result.Ok? ==> forall k :: 0 <= k < |result.value.ratings| ==>
      IsRatingDtoOf(result.value.ratings[k], RatingsIn(store.ratings, id), store.users)
    ensures result.Ok? ==> forall r :: r in RatingsIn(store.ratings, id) ==>
      r.userId in store.users && RatingDtoOf(r, store.users) in result.value.ratings
  {
    if id !in store.notes {
      return Err(NoteNotFound(id));
    }
    var detail := ConvertToDetailDto(store, id);
    result := Ok(detail);
  }

  /** Lines 72-76: the user is looked up before the subject. */
  function UploadError(userFound: bool, subjectFound: bool, subjectCode: string): (error: Option<string>)
    ensures error.None? <==> userFound && subjectFound
    ensures !userFound ==> error == Some(UserNotFound)
    ensures userFound && !subjectFound ==> error == Some(SubjectNotFound(subjectCode))
  {
    if !userFound then Some(UserNotFound)
    else if !subjectFound then Some(SubjectNotFound(subjectCode))
    else None
  }

  /** A note id nothing refers to has no ratings and no comments, so its average and count are 0. */
  lemma UnreferencedNoteIsUnrated(store: Store, id: string)
    requires store.Valid() && id !in store.notes
    ensures RatingsIn(store.ratings, id) == {} && CommentsIn(store.comments, id) == {}
    ensures AverageRating(RatingsIn(store.ratings, id)) == 0.0 && CommentCount(CommentsIn(store.comments, id)) == 0
  {
    forall x | x in store.ratings.Values ensures x.noteId != id {
      var j :| j in store.ratings && store.ratings[j] == x;
    }
    forall x | x in store.comments.Values ensures x.noteId != id {
      var j :| j in store.comments && store.comments[j] == x;
    }
  }

  /**
   * Lines 65-90. `stored` is what the file storage service returns for the
   * upload, `now` the server's clock and `freshId` the generated id. When a
   * lookup fails no file is stored and no note saved. Otherwise the file is
   * stored, the note is saved with the given name, the caller as author and
   * the looked-up subject, and the reply is its DTO, still unrated.
   */
  method UploadNote(store: Store, callerId: string, name: string, subjectCode: string, stored: File, now: int, freshId: string)
    returns (result: Result<Note, string>)
    requires store.Valid() && freshId !in store.notes
    modifies store
    ensures store.Valid()
    ensures store.users == old(store.users) && store.subjects == old(store.subjects)
    ensures store.ratings == old(store.ratings) && store.comments == old(store.comments)
    ensures var error := UploadError(callerId in old(store.users), subjectCode in old(store.subjects), subjectCode);
      && (error.Some? ==> result == Err(error.value))
      && (error.Some? ==> store.notes == old(store.notes) && store.noteOrder == old(store.noteOrder))
      && (error.Some? ==> store.storedFiles == old(store.storedFiles))
      && (error.None? ==> store.storedFiles == old(store.storedFiles) + [stored])
      && (error.None? ==> store.notes == old(store.notes)[freshId := NoteRow(freshId, name, stored, now, callerId, subjectCode)])
      && (error.None? ==> store.noteOrder == old(store.noteOrder) + [freshId])
    ensures result.Ok? ==> freshId in store.notes && result.value == NoteDtoOf(store, freshId)
    ensures result.Ok? ==> result.value.averageRating == 0.0 && result.value.commentCount == 0
  {
    var error := UploadError(callerId in store.users, subjectCode in store.subjects, subjectCode);
    if error.Some? {
      return Err(error.value);
    }
    UnreferencedNoteIsUnrated(store, freshId);
    store.storedFiles := store.storedFiles + [stored];
    store.notes := store.notes[freshId := NoteRow(freshId, name, stored, now, callerId, subjectCode)];
    store.noteOrder := store.noteOrder + [freshId];
    assert store.Valid();
    var dto := ConvertToDto(store, freshId);
    result := Ok(dto);
  }
}
