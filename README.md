# Study notes sharing: a Dafny model of its logic

Study Share Collection is a website where students share study notes. Each note
is a file filed under a university subject. Other students rate a note from 1
to 5 and comment on it. The project has two halves:

- a React front end, which has a mock access layer that stands in for the server;
- a Spring back end that stores users, subjects, notes, ratings and comments.

This project models the logic inside both halves and proves what it promises.

- **Note list page.** A subject filter, a case-insensitive search and four stable
  orderings. Their state is mirrored in the URL search parameters.
- **Home page.** It features the six best-rated notes.
- **Profile page.** It lists the user's own notes and handles logging out.
- **Detail page.** A submitted rating or comment is folded into the note on
  screen without refetching it. The page also picks the file icon.
- **Upload widget.** A size limit first, then an extension allow-list that comes
  from the `accept` string.
- **Star widget.** Which stars are lit, and when a click is passed on.
- **Mock access layer.** Its lookups, plus log-in, registration and log-out
  modelled as a state machine over the session token.
- **Server.** A note's average rating and comment count; the rating upsert,
  with at most one rating per user and note; comment creation; note listing,
  lookup and upload, with their DTO conversions; and the start-up seeding.

Page state and widget state are classes whose methods update fields. The
server's repositories are one `Repositories.Store` object made of maps. Its
`Valid()` invariant says five things:

- every row is stored under its id;
- `noteOrder` lists each note once;
- every join column names a stored row;
- no user has rated a note twice;
- every stored rating value is in 1..5.

Every controller method preserves that invariant.

Values the source takes from outside are parameters of the model:

- the clock (`now`);
- generated ids (`freshId`, `demoId`);
- `Math.random` fixtures;
- asynchronous replies, passed as `Result` values;
- the file storage service's result (`stored`);
- the password encoder's output (`passwordHash`);
- the authenticated caller (`callerId`).

Where the code and its description differ, the model follows the code:

- The detail page appends a new rating even when the same user rated the note
  before (`NoteDetailPage.NoDedupByUser`). Only the server replaces earlier ratings.
- The mock's `fetchCurrentUser` reports the first user whoever logged in
  (`MockApi.CurrentUserIgnoresLogin`).
- `registerUser` does not store the new user (`MockApi.RegisteredUserCannotLogIn`).
  It checks only that the address is free.
- The mock's `addRating` passes any value through. Only the server checks the
  range 1..5.

## Model

| member | source | states |
|---|---|---|
| NoteOrder.ParseSort | src/pages/Notes.tsx:83-96 | exactly the four keys `recent`, `oldest`, `rating` and `comments` select an ordering; any other key selects none |
| NoteOrder.Compare | src/pages/Notes.tsx:84-94 | each comparator is `key(b) - key(a)`, so a note goes after another exactly when its key is strictly smaller |
| NoteOrder.StableSortCorrect | src/pages/Notes.tsx:83-96 | the sort yields a permutation of its input, ordered by the key, largest first |
| NoteOrder.StableSortIsStable | src/pages/Notes.tsx:83-96 | notes with the same key keep their relative order, as `Array.prototype.sort` requires |
| NoteOrder.StableSortOfSorted | src/pages/Notes.tsx:83-96 | an input that is already ordered is returned unchanged |
| NoteOrder.SortInPlace | src/pages/Notes.tsx:83-96 | sorting the array in place leaves exactly the stable sort of its old contents |
| NoteOrder.StableSortSorted | src/pages/Notes.tsx:83-96 | the sorted notes are ordered by the key, largest first |
| NoteOrder.StableSortPermutes | src/pages/Notes.tsx:83-96 | the sorted notes are the input notes, each as often as before |
| NoteOrder.ShiftRight | src/pages/Notes.tsx:83-96 | one insertion step moves every earlier note with a strictly smaller key one place right and stops at a note whose key is at least as large |
| NoteOrder.InsertInto | src/pages/Notes.tsx:83-96 | after one insertion step the sorted prefix is one note longer and holds the inserted note at its stable place; the rest of the array is untouched |
| NoteOrder.SortedCopy | src/pages/Notes.tsx:61-96 | sorting a copy of the notes gives the stable sort of the notes |
| NotesPage.VisibleContents | src/pages/Notes.tsx:62-80 | the filters only remove notes: a note that passes both filters keeps its number of occurrences, every other note is gone, and the order is kept |
| NotesPage.ShownSubject | src/pages/Notes.tsx:65-69 | with a subject selected, every shown note has that subject code |
| NotesPage.ShownMembership | src/pages/Notes.tsx:65-80 | a note is shown iff it was fetched, has the selected subject (if any) and contains the lowered query in its lowered name, subject name or author name (if there is a query) |
| NotesPage.ShownContents | src/pages/Notes.tsx:60-98 | sorting neither adds nor drops a note |
| NotesPage.ShownOrder | src/pages/Notes.tsx:84-94 | `recent` gives non-increasing upload dates and `oldest` non-decreasing ones; `rating` gives non-increasing averages and `comments` non-increasing comment counts |
| NotesPage.ShownTiesKeepOrder | src/pages/Notes.tsx:83-96 | notes with equal keys stay in their filtered order |
| NotesPage.ShownUnsorted | src/pages/Notes.tsx:83-96 | an unrecognised sort key leaves the filtered order as it is |
| NotesPage.ShownUnfiltered | src/pages/Notes.tsx:60-98 | with no filter and no known ordering, the notes are shown exactly as fetched |
| NotesPage.FilterAndSort | src/pages/Notes.tsx:60-98 | copying, filtering and sorting an array in place yields what the page is specified to show |
| NotesPage.Get | src/pages/Notes.tsx:28-36 | `get` returns the value of the first entry with that key, or nothing when no entry has the key |
| NotesPage.UrlParamsLookup | src/pages/Notes.tsx:101-105 | each of `query`, `subject` and `sort` is written exactly when its value is non-empty; no other key and no empty value is written |
| NotesPage.UrlParamsEntries | src/pages/Notes.tsx:101-105 | every written parameter has one of the three keys and a non-empty value |
| NotesPage.GetConcat | src/pages/Notes.tsx:101-105 | in two parameter lists read one after the other, the first list's entry wins |
| NotesPage.InitialSort | src/pages/Notes.tsx:34-36 | the initial ordering is never empty, and it is `recent` when the URL has no `sort` |
| NotesPage.UrlRoundTrip | src/pages/Notes.tsx:28-36 | reading back the parameters the page wrote restores query, subject and ordering; an empty ordering comes back as `recent` |
| NotesPage.ClearedShowsAllNewestFirst | src/pages/Notes.tsx:113-118 | after `clearFilters` every note is shown, newest first |
| NotesPage.NotesView.constructor | src/pages/Notes.tsx:28-36 | the page starts with the filter state read from the URL, no notes and loading on |
| NotesPage.NotesView.Load | src/pages/Notes.tsx:40-58 | a successful fetch stores notes and subjects; a failure stores nothing; loading ends either way |
| NotesPage.NotesView.ApplyFilters | src/pages/Notes.tsx:60-98 | the shown notes become the filtered and sorted notes; nothing else changes |
| NotesPage.NotesView.SyncParams | src/pages/Notes.tsx:100-106 | the URL parameters become those written for the filter state; nothing else changes |
| NotesPage.NotesView.Refresh | src/pages/Notes.tsx:60-106 | the shown notes and the URL parameters are recomputed from the filter state; nothing else changes |
| NotesPage.NotesView.ClearFilters | src/pages/Notes.tsx:113-118 | query and subject become empty, the ordering `recent`, the parameters empty |
| IndexPage.FeaturedLength | src/pages/Index.tsx:31-35 | the featured list has min(6, number of notes) notes |
| IndexPage.FeaturedSorted | src/pages/Index.tsx:31-33 | featured notes come in non-increasing average rating |
| IndexPage.FeaturedAreBest | src/pages/Index.tsx:31-35 | every featured note was fetched, at most as often as fetched, and no note left out is rated above a featured one |
| IndexPage.PrefixOutranksRest | src/pages/Index.tsx:31-35 | in a list sorted by rating, every note of a prefix is rated at least as high as every later note |
| IndexPage.SelectFeatured | src/pages/Index.tsx:31-35 | sorting a copy in place and slicing it gives the featured list; the fetched notes are a value and stay as they are |
| IndexPage.IndexView.LoadData | src/pages/Index.tsx:22-45 | on success the featured notes and subjects are set, on failure both keep their values, and loading ends |
| ProfilePage.OwnNotes | src/pages/Profile.tsx:49-52 | exactly the fetched notes by that author, each as often as fetched, in fetched order |
| ProfilePage.OwnNotesMembership | src/pages/Profile.tsx:49-52 | a note is listed iff it was fetched and its author has the user's id |
| ProfilePage.OwnNotesAll | src/pages/Profile.tsx:49-52 | when all fetched notes are the user's own, all are listed in order |
| ProfilePage.ProfileView.NotesShared | src/pages/Profile.tsx:285 | the "Notes Shared" figure is the number of listed notes |
| ProfilePage.ProfileView.CheckAuth | src/pages/Profile.tsx:31-68 | without a user the page goes to `/login` and keeps user and notes; with one it sets the user and, if the fetch succeeds, the own notes; loading ends in every case |
| ProfilePage.ProfileView.HandleLogout | src/pages/Profile.tsx:70-91 | success keeps the button disabled and goes to `/`; failure enables it again |
| NoteDetailPage.SumValuesAppend | src/pages/NoteDetail.tsx:76-77 | the sum of values over the ratings with one appended is the old sum plus the new value |
| NoteDetailPage.MeanBounds | src/pages/NoteDetail.tsx:76-77 | with all values in lo..hi, the mean is in lo..hi |
| NoteDetailPage.WithRating | src/pages/NoteDetail.tsx:74-83 | the rating is appended; the new average times the new count is the new sum; every other field of the note is kept |
| NoteDetailPage.WithComment | src/pages/NoteDetail.tsx:113-118 | the comment is put in front and the count grows by one; everything else is kept |
| NoteDetailPage.WithRatingIsMean | src/pages/NoteDetail.tsx:76-77 | the new average is the mean of the updated ratings |
| NoteDetailPage.UpdatesPreserveConsistency | src/pages/NoteDetail.tsx:74-118 | both updates keep the average equal to the mean of the ratings and the count equal to the number of comments |
| NoteDetailPage.NoDedupByUser | src/pages/NoteDetail.tsx:75 | two ratings by the same user are both kept; the list grows by two |
| NoteDetailPage.IconFor | src/pages/NoteDetail.tsx:151-163 | no note gives no icon; otherwise the first of "pdf", "word" and "presentation" in the MIME type picks the icon, and a type with none of them gets the generic one |
| NoteDetailPage.IconFirstMatchWins | src/pages/NoteDetail.tsx:151-163 | a type naming both PDF and Word gets the PDF icon |
| NoteDetailPage.BlankCommentIgnored | src/pages/NoteDetail.tsx:105 | a comment is sent iff there is an id, the text is not all white space, and the user is logged in |
| NoteDetailPage.NoteDetailView.Load | src/pages/NoteDetail.tsx:38-63 | without an id nothing is fetched; a successful fetch sets the note and the login flag; loading ends either way |
| NoteDetailPage.NoteDetailView.HandleRatingChange | src/pages/NoteDetail.tsx:65-100 | no id or not logged in changes nothing; a failed request keeps the note; a successful one folds the rating in; the busy flag is cleared afterwards |
| NoteDetailPage.NoteDetailView.HandleCommentSubmit | src/pages/NoteDetail.tsx:102-137 | a guarded-out submission changes nothing; a failed one keeps the note and the text; a successful one adds the comment and clears the text |
| FileUpload.ExtensionIsAfterLastDot | src/components/ui/FileUpload.tsx:41 | the extension is the lower-cased text after the last "." (the whole name when it has none), with no "." and no upper-case letter |
| FileUpload.TrailingDotHasNoExtension | src/components/ui/FileUpload.tsx:41-46 | a name ending in "." has the empty extension, so it skips the type check |
| FileUpload.AcceptedTypes | src/components/ui/FileUpload.tsx:42-44 | the allowed types are the comma-separated `accept` entries, each without a leading "." |
| FileUpload.Check | src/components/ui/FileUpload.tsx:34-49 | the size check comes first; then a non-empty extension that is not allowed is refused; each refusal has its message; anything else is accepted |
| FileUpload.SizeLimitIsInclusive | src/components/ui/FileUpload.tsx:35-38 | a file of exactly maxSizeMB MiB passes the size check, and one more byte fails it |
| FileUpload.DefaultTypes | src/components/ui/FileUpload.tsx:16 | the default `accept` string allows exactly pdf, doc, docx, ppt and pptx |
| FileUpload.UpperCaseEntryNeverMatches | src/components/ui/FileUpload.tsx:41-47 | an upper-case `accept` entry never matches, because only the extension is lower-cased |
| FileUpload.FileUploadWidget.constructor | src/components/ui/FileUpload.tsx:16-17 | an `accept` string and a size limit that are not given fall back to the five document extensions and 10 MB; there is no file and no error yet |
| FileUpload.FileUploadWidget.HandleFileChange | src/components/ui/FileUpload.tsx:25-53 | no selection clears the file and reports none; a refused file sets the error, keeps the previous file and reports nothing; an accepted one clears the error, is kept and is reported |
| FileUpload.FileUploadWidget.RemoveFile | src/components/ui/FileUpload.tsx:82-90 | file and error are cleared and the owner is told there is no file |
| RatingStars.Stars | src/components/ui/RatingStars.tsx:44 | exactly maxRating stars, numbered 1..maxRating |
| RatingStars.Lit | src/components/ui/RatingStars.tsx:45 | star k is lit iff k is at most the hovered star when there is one, else the rating |
| RatingStars.LitIsPrefix | src/components/ui/RatingStars.tsx:45 | the lit stars are the first floor(effective rating) ones, capped at maxRating, so 4.7 lights four |
| RatingStars.HoverLightsUpTo | src/components/ui/RatingStars.tsx:44-57 | hovering a star lights exactly the stars up to it |
| RatingStars.Clicked | src/components/ui/RatingStars.tsx:36-56 | a click on star k is passed on, as k, iff the widget is interactive and has a handler |
| RatingStars.ShownValue | src/components/ui/RatingStars.tsx:66-70 | the label shows the hovered star, else a non-zero rating, else "Rate" |
| RatingStars.LabelAsWritten | src/components/ui/RatingStars.tsx:66-70 | as written, the label is shown only when interactive, and always over 5 |
| RatingStars.LabelAsWrittenExceedsDenominator | src/components/ui/RatingStars.tsx:66-70 | as written, hovering star 7 of 10 reads "7/5" |
| RatingStars.LabelOutOfMax | src/components/ui/RatingStars.tsx:66-70 | the corrected label is over the widget's own number of stars |
| RatingStars.LabelOutOfMaxBounded | src/components/ui/RatingStars.tsx:66-70 | with the corrected label, a hovered star never exceeds the denominator |
| RatingStars.LabelsAgreeAtDefault | src/components/ui/RatingStars.tsx:66-70 | with the default five stars, the label as written and the corrected one agree |
| RatingStars.StarsWidget.ShownLabel | src/components/ui/RatingStars.tsx:66-70 | the widget renders the label as written: shown exactly when interactive, with the hovered star, else the rating, else "Rate", over 5 whatever maxRating is |
| RatingStars.StarsWidget.MouseEnter | src/components/ui/RatingStars.tsx:57 | only an interactive widget follows the pointer |
| RatingStars.StarsWidget.MouseLeave | src/components/ui/RatingStars.tsx:58 | leaving an interactive widget resets the hover to 0 |
| MockApi.LoginOutcome | src/utils/api.ts:125-138 | an empty field is refused first, then an unknown address; otherwise the user with that address is logged in, and the password is never compared |
| MockApi.RegisterOutcome | src/utils/api.ts:147-163 | a registered address is refused; otherwise the new user gets id `user-<n+1>` |
| MockApi.RegisteredIdIsNew | src/utils/api.ts:153-157 | the id handed out is `user-5`, which no known user has |
| MockApi.RegisteredUserCannotLogIn | src/utils/api.ts:125-163 | a newly registered address still fails to log in, because registration stores no user |
| MockApi.UploadedNote | src/utils/api.ts:210-225 | the subject is looked up by code, else the first subject; the new note has average 0 and no comments |
| MockApi.UploadSubject | src/utils/api.ts:210 | a known code files the note under it; any other code files it under CS101 |
| MockApi.NewComment | src/utils/api.ts:180-185 | the comment carries the text, the time and the first user |
| MockApi.NewRating | src/utils/api.ts:195-200 | the rating carries the value unchecked, the time and the first user |
| MockApi.Api.FetchNotesBySubject | src/utils/api.ts:76 | exactly the stored notes with that code, in stored order |
| MockApi.Api.FetchNote | src/utils/api.ts:84-96 | nothing iff no note has the id; otherwise the first stored note with that id, with the given comments and ratings |
| MockApi.Api.FetchCurrentUser | src/utils/api.ts:111-118 | nobody iff there is no token (an empty one counts as none); otherwise the first user |
| MockApi.Api.LoginUser | src/utils/api.ts:121-141 | success stores the token; either error leaves it alone |
| MockApi.Api.RegisterUser | src/utils/api.ts:143-166 | a taken address leaves the token alone; success stores it |
| MockApi.Api.LogoutUser | src/utils/api.ts:168-175 | the token is removed, so the current user becomes nobody |
| MockApi.CurrentUserIgnoresLogin | src/utils/api.ts:111-138 | logging in as the second user returns that user, while a session holding the stored login token reports the first user as current (with `Api.LoginUser`, which stores that token on success) |
| NoteEntity.ValidNameTrim | src/main/java/com/studynotes/api/model/Note.java:25-27 | a valid note name does not trim to nothing and has at most 100 characters |
| NoteEntity.SumOfRemove | src/main/java/com/studynotes/api/model/Note.java:54 | the sum of a set of ratings does not depend on which rating is taken first |
| NoteEntity.SumOfBounds | src/main/java/com/studynotes/api/model/Note.java:50-55 | with all values in lo..hi, the sum of n ratings is between n*lo and n*hi |
| NoteEntity.AverageBounds | src/main/java/com/studynotes/api/model/Note.java:50-55 | a non-empty set of ratings has its average between the bounds of its values |
| NoteEntity.SumOfAdd | src/main/java/com/studynotes/api/model/Note.java:54 | a new rating adds its value to the sum |
| NoteEntity.ReAddChangesNothing | src/main/java/com/studynotes/api/model/Note.java:43-60 | adding a rating or a comment that is already in the set changes neither the average nor the count |
| NoteEntity.ComputeAverage | src/main/java/com/studynotes/api/model/Note.java:50-55 | going through the ratings one at a time gives 0 for none, and otherwise their mean |
| RatingController.RatingError | src/main/java/com/studynotes/api/controller/RatingController.java:43-51 | a request fails iff the value is outside 1..5, the user is unknown or the note is unknown, checked in that order, each with its message |
| RatingController.RangeCheckedFirst | src/main/java/com/studynotes/api/controller/RatingController.java:43-45 | an out-of-range value is refused whatever the lookups would find |
| RatingController.FindRatingKey | src/main/java/com/studynotes/api/controller/RatingController.java:54 | the lookup finds a rating of that user and note if there is one, and nothing only when there is none |
| RatingController.Upserted | src/main/java/com/studynotes/api/controller/RatingController.java:54-71 | an earlier rating of the pair gets the new value and date and keeps its id; otherwise a new rating of the pair is stored under the generated id; every other rating is kept |
| RatingController.SaveRating | src/main/java/com/studynotes/api/controller/RatingController.java:54-71 | the ratings after the save are the upsert, and the saved rating is stored under the returned id with the pair and the new value |
| RatingController.UpsertKeepsOneRatingPerPair | src/main/java/com/studynotes/api/controller/RatingController.java:54-71 | after the save, no user has two ratings of one note |
| RatingController.UpsertKeepsValuesInRange | src/main/java/com/studynotes/api/controller/RatingController.java:43-71 | saving a value that passed the range check keeps every stored rating value in 1..5 |
| RatingController.UpsertKeepsRowsValid | src/main/java/com/studynotes/api/controller/RatingController.java:61-71 | every rating stays under its id and refers to a stored user and note |
| RatingController.FirstRatingJoinsSet | src/main/java/com/studynotes/api/controller/RatingController.java:61-71 | a first rating makes the note's rating set one larger and its sum larger by the value |
| RatingController.RepeatedRatingReplacesValue | src/main/java/com/studynotes/api/controller/RatingController.java:57-60 | a repeated rating keeps the count and swaps the old value for the new one in the sum |
| RatingController.AddRating | src/main/java/com/studynotes/api/controller/RatingController.java:35-80 | nothing is saved on an error; otherwise the ratings are upserted, and the reply has the saved id, the value, the date and the caller's data; the store stays valid |
| CommentController.CommentError | src/main/java/com/studynotes/api/controller/CommentController.java:42-46 | a request fails iff the user or the note is unknown, the user being checked first |
| CommentController.CommentRowFor | src/main/java/com/studynotes/api/controller/CommentController.java:48-52 | the saved comment has the given text, date, caller and note |
| CommentController.NewCommentCounts | src/main/java/com/studynotes/api/controller/CommentController.java:48-54 | the new comment joins its note's comment set, so the count grows by one |
| CommentController.NewCommentLeavesOtherNotes | src/main/java/com/studynotes/api/controller/CommentController.java:48-54 | the comment sets of other notes do not change |
| CommentController.AddComment | src/main/java/com/studynotes/api/controller/CommentController.java:35-63 | nothing is saved on an error; otherwise exactly one comment is added, whatever its text, and the reply has its id, text, date and the caller's data |
| NoteController.NoteDtoOf | src/main/java/com/studynotes/api/controller/NoteController.java:92-118 | the DTO copies the stored fields and the author's and subject's data; its average and count are those of the note's rating and comment sets |
| NoteController.NoteDtoAverageInRange | src/main/java/com/studynotes/api/controller/NoteController.java:92-118 | a note's listed average is 0 with no ratings and otherwise lies in 1..5 |
| NoteController.CommentDtoOf | src/main/java/com/studynotes/api/controller/NoteController.java:124-131 | a comment's DTO carries its id, text, date and author data |
| NoteController.RatingDtoOf | src/main/java/com/studynotes/api/controller/NoteController.java:135-142 | a rating's DTO carries its id, value, date and author data |
| NoteController.ListedIds | src/main/java/com/studynotes/api/controller/NoteController.java:42-46 | no subject, or an empty one, lists `findAll`; otherwise the notes with that code are listed, in repository order |
| NoteController.ListedMembership | src/main/java/com/studynotes/api/controller/NoteController.java:42-46 | with a subject, a note is listed iff it is stored with that code; without one, iff it is stored |
| NoteController.ConvertToDto | src/main/java/com/studynotes/api/controller/NoteController.java:92-118 | the computed DTO is the stored note's DTO |
| NoteController.GetAllNotes | src/main/java/com/studynotes/api/controller/NoteController.java:37-53 | one DTO per listed note, same length and order |
| NoteController.NoteDtos | src/main/java/com/studynotes/api/controller/NoteController.java:47-49 | the DTO list has one entry per id, the DTO of the note with that id, at the same position |
| NoteController.CommentDtos | src/main/java/com/studynotes/api/controller/NoteController.java:123-132 | as many DTOs as the note has comments; each is a comment's DTO, and every comment's DTO is there |
| NoteController.CommentDtosOf | src/main/java/com/studynotes/api/controller/NoteController.java:124-131 | as many DTOs as rows; each is the DTO of one of the rows, and every row's DTO is there |
| NoteController.RatingDtos | src/main/java/com/studynotes/api/controller/NoteController.java:134-143 | as many DTOs as the note has ratings; each is a rating's DTO, and every rating's DTO is there |
| NoteController.RatingDtosOf | src/main/java/com/studynotes/api/controller/NoteController.java:135-142 | as many DTOs as rows; each is the DTO of one of the rows, and every row's DTO is there |
| NoteController.ConvertToDetailDto | src/main/java/com/studynotes/api/controller/NoteController.java:120-157 | the base fields are the note's DTO, and the comment and rating lists map the sets one to one |
| NoteController.GetNoteById | src/main/java/com/studynotes/api/controller/NoteController.java:55-63 | an unknown id fails with its message; a known one returns the note's DTO with one comment DTO per comment and one rating DTO per rating of the note |
| NoteController.UploadError | src/main/java/com/studynotes/api/controller/NoteController.java:72-76 | an upload fails iff the user or the subject is unknown, the user being checked first |
| NoteController.UnreferencedNoteIsUnrated | src/main/java/com/studynotes/api/controller/NoteController.java:80-89 | a note id that nothing refers to has no ratings and no comments, so average 0 and count 0 |
| NoteController.UploadNote | src/main/java/com/studynotes/api/controller/NoteController.java:65-90 | a failed lookup stores no file and saves no note; otherwise the file is stored and the note saved with the name, the caller and the subject, and the reply is its DTO with average 0 and count 0 |
| DataInitializer.DemoUser | src/main/java/com/studynotes/api/config/DataInitializer.java:60-64 | the demo account is "Demo User", demo@example.com, with the encoded password |
| DataInitializer.SeededSubjectsContents | src/main/java/com/studynotes/api/config/DataInitializer.java:28-55 | an empty subject store gets exactly CS101, MATH201, PHYS101 and ENG205, each under its code; any other is kept |
| DataInitializer.SeedSubjectsCount | src/main/java/com/studynotes/api/config/DataInitializer.java:29-55 | the seed holds four distinct subjects |
| DataInitializer.SeededUsersContents | src/main/java/com/studynotes/api/config/DataInitializer.java:59-65 | an empty user store gets only the demo user; any other is kept |
| DataInitializer.SeedingIsIdempotent | src/main/java/com/studynotes/api/config/DataInitializer.java:28-59 | seeding twice leaves what seeding once leaves |
| DataInitializer.SeedSubjectsIfEmpty | src/main/java/com/studynotes/api/config/DataInitializer.java:28-56 | the four seed subjects are stored only when there is no subject; nothing else changes; the store stays valid |
| DataInitializer.SeedUsersIfEmpty | src/main/java/com/studynotes/api/config/DataInitializer.java:59-65 | the demo user is stored only when there is no user; nothing else changes; the store stays valid |
| DataInitializer.Run | src/main/java/com/studynotes/api/config/DataInitializer.java:25-66 | subjects are seeded from the subjects alone and users from the users alone; nothing else changes; the store stays valid |

## Left out

- Asynchrony: delays, `Promise.all` and the order of `await`s. Each call is one atomic step that succeeds or fails, so interleavings of two pending requests are not modelled.
- Toasts, navigation history and rendering. Only the `location` a page moves to is kept.
- The random generation in the mock (`generateNotes`, `generateComments`, `generateRatings`) and the clock-based ids. Their results are parameters.
- Floating point and `formatFileSize`. Averages are exact reals, and a JavaScript double or a Java `double` can round differently.
- The `accept` attribute's browser-side filtering, the drag-and-drop state and the fractional `maxSizeMB` of the upload widget. Sizes and limits are whole numbers.
- Case mapping and trimming beyond ASCII. `Lower` maps only A-Z, and `IsSpace` knows only the ASCII white space characters.
- Spring Security, JWT, `AuthController`, `UserDetailsImpl` and `PasswordEncoder`. The caller's id and the password hash are parameters.
- The `studyshare` package. It is a placeholder whose service is not part of this model.
- FileStorageService. Its result is the `stored` parameter, and storing is recorded as an append to `storedFiles`.
- The order in which `findAll` and `findBySubjectCode` return notes is fixed as `noteOrder`. The HashSet order of a note's comments and ratings is left open: the DTO lists are some enumeration of the sets.
- `Integer.parseInt` on the rating payload. The value arrives as an integer, so a malformed payload is not modelled.
- NoteEntity.ValidName: bean validation when a note is saved is not modelled. The upload saves any name, and `ValidName` states only the constraint.
- CommentController.AddComment: the `@NotBlank` constraint on the comment text (Comment.java line 22) and missing payload keys are not modelled. The text arrives as a string and is saved as it is, so a blank text is not refused.
- NoteDetailPage.WithRating: the new average is stated by its product with the count, the form the division `sum / length` takes without rounding.
- Data-only classes (the DTOs, `FileInfo`, configuration) are the shared types and have no behaviour of their own.
- The static fixtures of `mockData.ts`. They are not used by the modelled code.

## Findings

| source | as written | input that shows it | evidently intended | confidence | as-written member | corrected member |
|---|---|---|---|---|---|---|
| src/components/ui/RatingStars.tsx:66-70 | the interactive label always reads `<value>/5` | a widget with `maxRating` 10, hovering star 7, reads "7/5" | the denominator is the widget's own `maxRating` | low, not executed; every page uses five stars | RatingStars.LabelAsWritten (RatingStars.LabelAsWrittenExceedsDenominator) | RatingStars.LabelOutOfMax (RatingStars.LabelOutOfMaxBounded) |
