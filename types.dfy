/**
 * The entities the client works with (src/types/index.ts). The server's DTOs
 * (NoteDto, NoteDetailDto, CommentDto, RatingDto, UserDto, SubjectDto, FileDto)
 * have the same shapes and are these types too. Dates are millisecond
 * timestamps; an average rating is a real number.
 */
module Types {

  datatype User = User(id: string, name: string, email: string)

  datatype Subject = Subject(code: string, name: string, year: int, semester: int)

  /** The file attached to a note: its name, MIME type and download link. */
  datatype File = File(fileName: string, fileType: string, downloadUrl: string)

  datatype Comment = Comment(id: string, text: string, date: int, user: User)

  datatype Rating = Rating(id: string, value: int, date: int, user: User)

  datatype Note = Note(
    id: string,
    name: string,
    file: File,
    uploadDate: int,
    user: User,
    subject: Subject,
    averageRating: real,
    commentCount: int)

  /** A note with its comments (newest first) and its ratings. */
  datatype NoteDetail = NoteDetail(note: Note, comments: seq<Comment>, ratings: seq<Rating>)
}
