/**
 * `POST /ratings` (src/main/java/com/studynotes/api/controller/RatingController.java):
 * a value from 1 to 5 by a known user on a known note either updates that
 * user's earlier rating of the note or creates a new one.
 */
module RatingController {
  import opened Wrappers
  import opened Types
  import opened NoteEntity
  import opened Repositories

  const RangeError: string := "Rating value must be between 1 and 5"

  /** Lines 43-51: the first check that fails, in the order range, user, note. */
  function RatingError(value: int, userFound: bool, noteFound: bool, noteId: string): (error: Option<string>)
    ensures error.None? <==> 1 <= value <= 5 && userFound && noteFound
    ensures !(1 <= value <= 5) ==> error == Some(RangeError)
    ensures 1 <= value <= 5 && !userFound ==> error == Some(UserNotFound)
    ensures 1 <= value <= 5 && userFound && !noteFound ==> error == Some(NoteNotFound(noteId))
  {
    if value < 1 || value > 5 then Some(RangeError)
    else if !userFound then Some(UserNotFound)
    else if !noteFound then Some(NoteNotFound(noteId))
    else None
  }

  /** A value out of range is refused whatever the lookups would find. */
  lemma RangeCheckedFirst(value: int, userFound: bool, noteFound: bool, noteId: string)
    requires value < 1 || value > 5
    ensures RatingError(value, userFound, noteFound, noteId) == Some(RangeError)
    ensures RatingError(value, userFound, noteFound, noteId) == RatingError(value, true, true, noteId)
  {
  }

  predicate RatesPair(r: RatingRow, userId: string, noteId: string) {
    r.userId == userId && r.noteId == noteId
  }

  /** Line 54, `findByUserIdAndNoteId`: the key of the user's rating of the note, if any. */
  ghost function FindRatingKey(ratings: map<string, RatingRow>, userId: string, noteId: string): (r: Option<string>)
    ensures r.Some? ==> r.value in ratings && RatesPair(ratings[r.value], userId, noteId)
    ensures r.None? <==> forall k :: k in ratings ==> !RatesPair(ratings[k], userId, noteId)
  {
    if exists k :: k in ratings && RatesPair(ratings[k], userId, noteId) then
      var k :| k in ratings && RatesPair(ratings[k], userId, noteId);
      Some(k)
    else None
  }

  /** With at most one rating per pair, the lookup finds the rating of the pair that is there. */
  lemma FindsTheRating(ratings: map<string, RatingRow>, userId: string, noteId: string, k: string)
    requires OneRatingPerPairIn(ratings) && k in ratings && RatesPair(ratings[k], userId, noteId)
    ensures FindRatingKey(ratings, userId, noteId) == Some(k)
  {
  }

  /** The id the saved rating has: the earlier rating's, else the generated one. */
  ghost function SavedRatingId(ratings: map<string, RatingRow>, userId: string, noteId: string, freshId: string): string {
    FindRatingKey(ratings, userId, noteId).GetOr(freshId)
  }

  /**
   * Lines 54-71: the ratings after the save. An earlier rating of the pair
   * gets the new value and date and keeps everything else; without one a
   * new rating of the pair is stored under the generated id.
   */
  ghost function Upserted(ratings: map<string, RatingRow>, userId: string, noteId: string, value: int, now: int, freshId: string): (m: map<string, RatingRow>)
    requires freshId !in ratings
    ensures m.Keys == ratings.Keys + {SavedRatingId(ratings, userId, noteId, freshId)}
    ensures var k := SavedRatingId(ratings, userId, noteId, freshId);
      && m[k].value == value && m[k].date == now && RatesPair(m[k], userId, noteId)
      && (k in ratings ==> m[k].id == ratings[k].id)
      && (k !in ratings ==> m[k].id == freshId && k == freshId)
    ensures forall k :: k in ratings && k != SavedRatingId(ratings, userId, noteId, freshId) ==> m[k] == ratings[k]
  {
    match FindRatingKey(ratings, userId, noteId)
    case Some(k) => ratings[k := ratings[k].(value := value, date := now)]
    case None => ratings[freshId := RatingRow(freshId, value, now, userId, noteId)]
  }

  /** After the save the user still has at most one rating per note, and so does everyone else. */
  lemma UpsertKeepsOneRatingPerPair(ratings: map<string, RatingRow>, userId: string, noteId: string, value: int, now: int, freshId: string)
    requires freshId !in ratings && OneRatingPerPairIn(ratings)
    ensures OneRatingPerPairIn(Upserted(ratings, userId, noteId, value, now, freshId))
  {
    var m := Upserted(ratings, userId, noteId, value, now, freshId);
    var s := SavedRatingId(ratings, userId, noteId, freshId);
    forall a, b | a in m && b in m && m[a].userId == m[b].userId && m[a].noteId == m[b].noteId
      ensures a == b
    {
      if a != s && b != s {
        assert m[a] == ratings[a] && m[b] == ratings[b];
      }
    }
  }

  /** The saved rating is stored under its id and refers to the caller and the note. */
  lemma UpsertKeepsRowsValid(ratings: map<string, RatingRow>, users: map<string, Account>, notes: map<string, NoteRow>,
                             userId: string, noteId: string, value: int, now: int, freshId: string)
    requires freshId !in ratings && RatingsKeyed(ratings) && RatingsRefer(ratings, users, notes)
    requires userId in users && noteId in notes
    ensures var m := Upserted(ratings, userId, noteId, value, now, freshId);
      RatingsKeyed(m) && RatingsRefer(m, users, notes)
  {
  }

  /** Saving an accepted value keeps every stored value in 1..5. */
  lemma UpsertKeepsValuesInRange(ratings: map<string, RatingRow>, userId: string, noteId: string, value: int, now: int, freshId: string)
    requires freshId !in ratings && RatingsInRange(ratings) && 1 <= value <= 5
    ensures RatingsInRange(Upserted(ratings, userId, noteId, value, now, freshId))
  {
    var m := Upserted(ratings, userId, noteId, value, now, freshId);
    var s := SavedRatingId(ratings, userId, noteId, freshId);
    forall k | k in m ensures 1 <= m[k].value <= 5 {
      if k != s {
        assert m[k] == ratings[k];
      }
    }
  }

  /**
   * A first rating joins the note's rating set: one more rating, and the
   * sum grows by its value.
   */
  lemma FirstRatingJoinsSet(ratings: map<string, RatingRow>, userId: string, noteId: string, value: int, now: int, freshId: string)
    requires freshId !in ratings && FindRatingKey(ratings, userId, noteId).None?
    requires RatingsKeyed(ratings)
    ensures var after := RatingsIn(Upserted(ratings, userId, noteId, value, now, freshId), noteId);
      && |after| == |RatingsIn(ratings, noteId)| + 1
      && SumOf(after) == SumOf(RatingsIn(ratings, noteId)) + value
  {
    var row := RatingRow(freshId, value, now, userId, noteId);
    var before := RatingsIn(ratings, noteId);
    var after := RatingsIn(Upserted(ratings, userId, noteId, value, now, freshId), noteId);
    assert row !in before;
    assert after == before + {row};
    SumOfAdd(before, row);
  }

  /**
   * A repeated rating replaces the earlier one in the note's rating set:
   * the count stays, and the sum trades the old value for the new one.
   */
  lemma RepeatedRatingReplacesValue(ratings: map<string, RatingRow>, userId: string, noteId: string, value: int, now: int, freshId: string)
    requires freshId !in ratings && FindRatingKey(ratings, userId, noteId).Some?
    requires RatingsKeyed(ratings)
    ensures var earlier := ratings[FindRatingKey(ratings, userId, noteId).value];
      var after := RatingsIn(Upserted(ratings, userId, noteId, value, now, freshId), noteId);
      && |after| == |RatingsIn(ratings, noteId)|
      && SumOf(after) == SumOf(RatingsIn(ratings, noteId)) - earlier.value + value
  {
    var k := FindRatingKey(ratings, userId, noteId).value;
    var earlier := ratings[k];
    var row := earlier.(value := value, date := now);
    var before := RatingsIn(ratings, noteId);
    var m := Upserted(ratings, userId, noteId, value, now, freshId);
    var after := RatingsIn(m, noteId);
    var rest := before - {earlier};
    assert earlier in before;
    assert row !in rest;
    assert after == rest + {row} by {
      forall x ensures x in after <==> x in rest + {row} {
        if x in after {
          var j :| j in m && m[j] == x;
          if j != k {
            assert x == ratings[j] && x.id == j;
          }
        }
        if x in rest {
          var j :| j in ratings && ratings[j] == x;
          assert x.id == j && j != k;
          assert m[j] == x;
        }
      }
    }
    SumOfRemove(before, earlier);
    SumOfAdd(rest, row);
  }

  /**
   * Lines 54-71: looks up the pair's rating and saves the new value; returns
   * the ratings afterwards and the saved rating's id.
   */
  method SaveRating(ratings: map<string, RatingRow>, userId: string, noteId: string, value: int, now: int, freshId: string)
    returns (saved: map<string, RatingRow>, id: string)
    requires freshId !in ratings && OneRatingPerPairIn(ratings)
    ensures saved == Upserted(ratings, userId, noteId, value, now, freshId)
    ensures id == SavedRatingId(ratings, userId, noteId, freshId)
    ensures id in saved && saved[id].value == value && RatesPair(saved[id], userId, noteId)
  {
    if exists k :: k in ratings && RatesPair(ratings[k], userId, noteId) {
      var k :| k in ratings && RatesPair(ratings[k], userId, noteId);
      FindsTheRating(ratings, userId, noteId, k);
      saved, id := ratings[k := ratings[k].(value := value, date := now)], k;
    } else {
      assert FindRatingKey(ratings, userId, noteId) == None;
      saved, id := ratings[freshId := RatingRow(freshId, value, now, userId, noteId)], freshId;
    }
  }

  /**
   * Lines 35-80. `callerId` is the authenticated user's id, `now` the
   * server's clock and `freshId` the id the repository would generate.
   * Nothing is saved when a check fails; otherwise the ratings become
   * `Upserted(...)` and the reply carries the saved id, the submitted value,
   * the date and the caller's user data.
   */
  method AddRating(store: Store, callerId: string, noteId: string, value: int, now: int, freshId: string)
    returns (result: Result<Rating, string>)
    requires store.Valid() && freshId !in store.ratings
    modifies store
    ensures store.Valid()
    ensures var error := RatingError(value, callerId in old(store.users), noteId in old(store.notes), noteId);
      && (error.Some? ==> result == Err(error.value) && store.ratings == old(store.ratings))
      && (error.None? ==> result.Ok? && store.ratings == Upserted(old(store.ratings), callerId, noteId, value, now, freshId))
    ensures result.Ok? ==>
      result.value == Rating(SavedRatingId(old(store.ratings), callerId, noteId, freshId), value, now, UserDto(store.users[callerId]))
    ensures store.users == old(store.users) && store.subjects == old(store.subjects)
    ensures store.notes == old(store.notes) && store.noteOrder == old(store.noteOrder)
    ensures store.comments == old(store.comments) && store.storedFiles == old(store.storedFiles)
  {
    var error := RatingError(value, callerId in store.users, noteId in store.notes, noteId);
    if error.Some? {
      return Err(error.value);
    }
    var user := store.users[callerId];
    ghost var before := store.ratings;
    var saved, id := SaveRating(store.ratings, callerId, noteId, value, now, freshId);
    UpsertKeepsOneRatingPerPair(before, callerId, noteId, value, now, freshId);
    UpsertKeepsRowsValid(before, store.users, store.notes, callerId, noteId, value, now, freshId);
    UpsertKeepsValuesInRange(before, callerId, noteId, value, now, freshId);
    store.ratings := saved;
    result := Ok(Rating(id, value, now, UserDto(user)));
  }
}
