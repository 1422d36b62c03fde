/**
 * The persistent note and the rows that refer to it
 * (src/main/java/com/studynotes/api/model/Note.java with Rating.java,
 * Comment.java, User.java). A row refers to another entity by its key, as the
 * join columns do. The ratings and comments of a note are sets, so the average
 * and the count are functions of sets.
 */
module NoteEntity {
  import opened Types
  import opened Text
  import opened Arith

  /** A stored user (User.java); only `id`, `name` and `email` leave the server. */
  datatype Account = Account(id: string, name: string, email: string, password: string)

  /** A stored rating (Rating.java); `userId` and `noteId` are its join columns. */
  datatype RatingRow = RatingRow(id: string, value: int, date: int, userId: string, noteId: string)

  /** A stored comment (Comment.java). */
  datatype CommentRow = CommentRow(id: string, text: string, date: int, userId: string, noteId: string)

  /** A stored note (Note.java lines 21-41). */
  datatype NoteRow = NoteRow(id: string, name: string, file: File, uploadDate: int, userId: string, subjectCode: string)

  /** The user data a DTO carries. */
  function UserDto(a: Account): (u: User)
    ensures u.id == a.id && u.name == a.name && u.email == a.email
  {
    User(a.id, a.name, a.email)
  }

  /** Lines 25-27: a note name is not blank and has at most 100 characters. */
  predicate ValidName(name: string) {
    !IsBlank(name) && |name| <= 100
  }

  /** A name is valid exactly when it does not trim to nothing and is short enough. */
  lemma ValidNameTrim(name: string)
    ensures ValidName(name) <==> Trim(name) != "" && |name| <= 100
  {
    TrimEmptyIffBlank(name);
  }

  /** The sum of the values of a set of ratings. */
  ghost function SumOf(ratings: set<RatingRow>): int
    decreases |ratings|
  {
    if ratings == {} then 0
    else
      var r :| r in ratings;
      r.value + SumOf(ratings - {r})
  }

  /** The sum does not depend on which rating is taken out first. */
  lemma {:induction false} SumOfRemove(ratings: set<RatingRow>, y: RatingRow)
    requires y in ratings
    ensures SumOf(ratings) == y.value + SumOf(ratings - {y})
    decreases |ratings|
  {
    var x :| x in ratings && SumOf(ratings) == x.value + SumOf(ratings - {x});
    if x != y {
      SumOfRemove(ratings - {x}, y);
      SumOfRemove(ratings - {y}, x);
      assert ratings - {x} - {y} == ratings - {y} - {x};
    }
  }

  /** Lines 50-55: 0 for no ratings, otherwise the mean of the values. */
  ghost function AverageRating(ratings: set<RatingRow>): real {
    Mean(SumOf(ratings), |ratings|)
  }

  /** A total over a count, 0 when there is nothing to count. */
  function Mean(total: int, count: nat): real {
    if count == 0 then 0.0 else total as real / count as real
  }

  /** Lines 57-60. */
  function CommentCount(comments: set<CommentRow>): nat {
    |comments|
  }

  /** The sum of values between `lo` and `hi` is between `n*lo` and `n*hi`. */
  lemma {:induction false} SumOfBounds(ratings: set<RatingRow>, lo: int, hi: int)
    requires forall r :: r in ratings ==> lo <= r.value <= hi
    ensures |ratings| * lo <= SumOf(ratings) <= |ratings| * hi
    decreases |ratings|
  {
    if ratings != {} {
      var r :| r in ratings;
      var rest := ratings - {r};
      var n := |rest|;
      assert |ratings| == n + 1;
      SumOfRemove(ratings, r);
      SumOfBounds(rest, lo, hi);
      MulSucc(n, lo);
      MulSucc(n, hi);
    }
  }

  /**
   * With every value in `lo..hi` the average is in `lo..hi` too; in
   * particular it lies between the smallest and the largest value.
   */
  lemma AverageBounds(ratings: set<RatingRow>, lo: int, hi: int)
    requires ratings != {}
    requires forall r :: r in ratings ==> lo <= r.value <= hi
    ensures lo as real <= AverageRating(ratings) <= hi as real
  {
    SumOfBounds(ratings, lo, hi);
    MeanBetween(SumOf(ratings), |ratings|, lo, hi);
    assert AverageRating(ratings) == SumOf(ratings) as real / |ratings| as real;
  }

  /** A new rating adds its value to the sum. */
  lemma SumOfAdd(ratings: set<RatingRow>, r: RatingRow)
    requires r !in ratings
    ensures SumOf(ratings + {r}) == SumOf(ratings) + r.value
  {
    SumOfRemove(ratings + {r}, r);
    assert ratings + {r} - {r} == ratings;
  }

  /** Adding a rating or a comment that is already there changes neither derived value. */
  lemma ReAddChangesNothing(ratings: set<RatingRow>, r: RatingRow, comments: set<CommentRow>, c: CommentRow)
    requires r in ratings && c in comments
    ensures AverageRating(ratings + {r}) == AverageRating(ratings)
    ensures CommentCount(comments + {c}) == CommentCount(comments)
  {
    assert ratings + {r} == ratings;
    assert comments + {c} == comments;
  }

  /** `ratings.stream().mapToInt(Rating::getValue).average()`, computed one rating at a time. */
  method ComputeAverage(ratings: set<RatingRow>) returns (average: real)
    ensures average == AverageRating(ratings)
  {
    var rest := ratings;
    var sum := 0;
    var count := 0;
    while rest != {}
      invariant rest <= ratings
      invariant sum + SumOf(rest) == SumOf(ratings)
      invariant count + |rest| == |ratings|
      decreases |rest|
    {
      var r :| r in rest;
      SumOfRemove(rest, r);
      sum := sum + r.value;
      count := count + 1;
      rest := rest - {r};
    }
    average := Mean(sum, count);
  }
}
