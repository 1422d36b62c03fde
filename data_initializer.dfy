/**
 * The start-up seeding (src/main/java/com/studynotes/api/config/DataInitializer.java):
 * four subjects when there are none, and a demo user when there are no users.
 */
module DataInitializer {
  import opened Types
  import opened NoteEntity
  import opened Repositories

  /** Lines 29-55. */
  const SeedSubjects: map<string, Subject> := map[
    "CS101" := Subject("CS101", "Introduction to Computer Science", 1, 1),
    "MATH201" := Subject("MATH201", "Calculus II", 2, 1),
    "PHYS101" := Subject("PHYS101", "Physics I", 1, 2),
    "ENG205" := Subject("ENG205", "Technical Writing", 2, 2)]

  /** Lines 61-63; the password is stored as the encoder's hash of "password123". */
  function DemoUser(id: string, passwordHash: string): (a: Account)
    ensures a.id == id && a.name == "Demo User" && a.email == "demo@example.com" && a.password == passwordHash
  {
    Account(id, "Demo User", "demo@example.com", passwordHash)
  }

  /** Line 28: the subjects after seeding. */
  function SeededSubjects(subjects: map<string, Subject>): map<string, Subject> {
    if |subjects| == 0 then SeedSubjects else subjects
  }

  /** Line 59: the users after seeding; `demoId` is the id the repository generates. */
  function SeededUsers(users: map<string, Account>, demoId: string, passwordHash: string): map<string, Account> {
    if |users| == 0 then map[demoId := DemoUser(demoId, passwordHash)] else users
  }

  /**
   * An empty subject store ends up holding exactly the four seed subjects,
   * each under its code; one that is not empty is left as it is.
   */
  lemma SeededSubjectsContents(subjects: map<string, Subject>)
    ensures |subjects| == 0 ==> SeededSubjects(subjects).Keys == {"CS101", "MATH201", "PHYS101", "ENG205"}
    ensures |subjects| == 0 ==> SubjectsKeyed(SeededSubjects(subjects))
    ensures |subjects| != 0 ==> SeededSubjects(subjects) == subjects
  {
  }

  /** The seed holds four distinct subjects. */
  lemma SeedSubjectsCount()
    ensures |SeedSubjects| == 4
  {
    var keys := SeedSubjects.Keys;
    assert keys == {"CS101", "MATH201", "PHYS101", "ENG205"};
    assert "CS101" != "MATH201" && "CS101" != "PHYS101" && "CS101" != "ENG205";
    assert "MATH201" != "PHYS101" && "MATH201" != "ENG205" && "PHYS101" != "ENG205";
    assert |keys| == 4;
  }

  /** An empty user store ends up holding only the demo user; any other is left as it is. */
  lemma SeededUsersContents(users: map<string, Account>, demoId: string, passwordHash: string)
    ensures |users| == 0 ==> SeededUsers(users, demoId, passwordHash) == map[demoId := DemoUser(demoId, passwordHash)]
    ensures |users| != 0 ==> SeededUsers(users, demoId, passwordHash) == users
    ensures |SeededUsers(users, demoId, passwordHash)| >= 1
  {
  }

  /**
   * Lines 28 and 59: seeding a second time changes nothing, whatever id the
   * second run would generate.
   */
  lemma SeedingIsIdempotent(subjects: map<string, Subject>, users: map<string, Account>,
                            demoId: string, passwordHash: string, laterId: string, laterHash: string)
    ensures SeededSubjects(SeededSubjects(subjects)) == SeededSubjects(subjects)
    ensures SeededUsers(SeededUsers(users, demoId, passwordHash), laterId, laterHash) == SeededUsers(users, demoId, passwordHash)
  {
    SeedSubjectsCount();
    SeededUsersContents(users, demoId, passwordHash);
  }

  /** Lines 28-56: the four subjects are saved only into an empty subject repository. */
  method SeedSubjectsIfEmpty(store: Store)
    requires store.Valid()
    modifies store
    ensures store.Valid()
    ensures store.subjects == SeededSubjects(old(store.subjects))
    ensures store.users == old(store.users) && store.notes == old(store.notes) && store.noteOrder == old(store.noteOrder)
    ensures store.ratings == old(store.ratings) && store.comments == old(store.comments)
    ensures store.storedFiles == old(store.storedFiles)
  {
    if |store.subjects| == 0 {
      store.subjects := SeedSubjects;
    }
  }

  /** Lines 59-65: the demo user is saved only into an empty user repository. */
  method SeedUsersIfEmpty(store: Store, demoId: string, passwordHash: string)
    requires store.Valid()
    modifies store
    ensures store.Valid()
    ensures store.users == SeededUsers(old(store.users), demoId, passwordHash)
    ensures store.subjects == old(store.subjects) && store.notes == old(store.notes) && store.noteOrder == old(store.noteOrder)
    ensures store.ratings == old(store.ratings) && store.comments == old(store.comments)
    ensures store.storedFiles == old(store.storedFiles)
  {
    if |store.users| == 0 {
      store.users := map[demoId := DemoUser(demoId, passwordHash)];
    }
  }

  /**
   * Lines 25-66. Subject seeding depends only on the subjects and user
   * seeding only on the users; nothing else changes.
   */
  method Run(store: Store, demoId: string, passwordHash: string)
    requires store.Valid()
    modifies store
    ensures store.Valid()
    ensures store.subjects == SeededSubjects(old(store.subjects))
    ensures store.users == SeededUsers(old(store.users), demoId, passwordHash)
    ensures store.notes == old(store.notes) && store.noteOrder == old(store.noteOrder)
    ensures store.ratings == old(store.ratings) && store.comments == old(store.comments)
    ensures store.storedFiles == old(store.storedFiles)
  {
    SeedSubjectsIfEmpty(store);
    SeedUsersIfEmpty(store, demoId, passwordHash);
  }
}
