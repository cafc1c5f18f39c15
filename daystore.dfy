/**
 * The day routes of the server, over the collection of days held as a map from
 * `(userId, dayId)` to the stored record. The composite unique index on `{ userId, id }` is the
 * map's key; the class invariant says every record is stored under its own owner and id.
 */
module DayRoutes {
  import opened Wrappers
  import opened Text
  import opened Meals
  import opened DaySchema
  import opened DayOrder

  /** The error responses of the routes. */
  datatype Error = DayExists | DayNotFound | InvalidMealType | ServerError

  /** The HTTP status each error is sent with. */
  function Status(e: Error): (code: nat)
    ensures code == 400 <==> e == DayExists || e == InvalidMealType
    ensures code == 404 <==> e == DayNotFound
    ensures code == 500 <==> e == ServerError
  {
    match e
    case DayExists => 400
    case DayNotFound => 404
    case InvalidMealType => 400
    case ServerError => 500
  }

  /** The `photo` of an add-photo body; an `id` of "" is a missing id, None calories are falsy. */
  datatype PhotoInput = PhotoInput(id: string, url: Option<string>, calories: Option<int>)

  /**
   * The record pushed by the add-photo route: `photo.id || Date.now().toString()`,
   * `photo.calories || 0`, and the server's clock as the timestamp.
   */
  function NewPhoto(photo: PhotoInput, generatedId: string, now: int): (p: Photo)
    ensures photo.id != "" ==> p.id == photo.id
    ensures photo.id == "" ==> p.id == generatedId
    ensures p.url == photo.url && p.timestamp == now
    ensures p.calories == Some(if photo.calories.Some? then photo.calories.value else 0)
  {
    Photo(if photo.id != "" then photo.id else generatedId, photo.url, Some(photo.calories.GetOr(0)), now)
  }

  /** The update document `{ ...req.body, userId }` cast to the schema, `id` already resolved. */
  function Patch(body: Day, caller: string, id: string): (r: Day)
    ensures r.id == id && r.userId == Some(caller)
  {
    Cast(body).(id := id, userId := Some(caller))
  }

  /** Every field the update body carries is in the updated record, cast to the schema. */
  lemma MergeCarriesBody(stored: Day, body: Day, caller: string, id: string)
    requires id != ""
    ensures var r := Merge(stored, Patch(body, caller, id));
      && r.id == id && r.userId == Some(caller)
      && (body.meals.Some? ==> r.meals == Some(CastSlots(body.meals.value)))
      && (body.meals.None? ==> r.meals == stored.meals)
      && (body.mealPhotos.Some? ==> r.mealPhotos == body.mealPhotos)
      && (body.mealPhotos.None? ==> r.mealPhotos == stored.mealPhotos)
      && (body.activities.Some? ==> r.activities == Some(TrimAll(body.activities.value)))
      && (body.activities.None? ==> r.activities == stored.activities)
      && (body.notes.Some? ==> r.notes == Some(Trim(body.notes.value)))
      && (body.notes.None? ==> r.notes == stored.notes)
      && (body.weight.Some? ==> r.weight == body.weight)
      && (body.weight.None? ==> r.weight == stored.weight)
      && (body.waterIntake.Some? ==> r.waterIntake == body.waterIntake)
      && (body.waterIntake.None? ==> r.waterIntake == stored.waterIntake)
      && (body.stepCount.Some? ==> r.stepCount == body.stepCount)
      && (body.stepCount.None? ==> r.stepCount == stored.stepCount)
      && (body.totalCalories.Some? ==> r.totalCalories == body.totalCalories)
      && (body.totalCalories.None? ==> r.totalCalories == stored.totalCalories)
  {
  }

  /** The days, as `save()` would find them valid, stored under their own owner and id. */
  class DayStore {
    var days: map<(string, string), Day>

    ghost predicate Valid()
      reads this
    {
      forall key :: key in days ==> days[key].userId == Some(key.0) && days[key].id == key.1
    }

    constructor()
      ensures days == map[] && Valid()
    {
      days := map[];
    }

    /**
     * `GET /`: the caller's days, newest first, each with a missing `stepCount` or
     * `waterIntake` reported as 0.
     */
    method List(caller: string) returns (r: seq<Day>)
      requires Valid()
      ensures forall d :: d in r ==> d.userId == Some(caller)
      ensures forall id :: (caller, id) in days ==> Normalize(days[(caller, id)]) in r
      ensures forall d :: d in r ==> (caller, d.id) in days && d == Normalize(days[(caller, d.id)])
      ensures StrictlyDesc(r)
    {
      r := [];
      var keys := days.Keys;
      while keys != {}
        invariant keys <= days.Keys
        invariant SortedDesc(r) && StrictlyDesc(r)
        invariant forall d :: d in r ==>
          (caller, d.id) in days.Keys - keys && d == Normalize(days[(caller, d.id)])
        invariant forall id :: (caller, id) in days.Keys - keys ==> Normalize(days[(caller, id)]) in r
        decreases |keys|
      {
        var key :| key in keys;
        if key.0 == caller {
          var d := Normalize(days[key]);
          assert d.id == key.1;
          forall i | 0 <= i < |r|
            ensures r[i].id != d.id
          {
            assert r[i] in r;
          }
          InsertNewId(r, d);
          r := InsertDesc(r, d);
        }
        keys := keys - {key};
      }
    }

    /** `GET /:dayId`: the caller's day with that id; another user's day is not found. */
    function Get(caller: string, dayId: string): (r: Result<Day, Error>)
      reads this
      ensures r.Success? <==> (caller, dayId) in days
      ensures r.Success? ==> r.value == days[(caller, dayId)]
      ensures r.Failure? ==> r.error == DayNotFound
    {
      if (caller, dayId) in days then Success(days[(caller, dayId)]) else Failure(DayNotFound)
    }

    /** Some day of the caller is stored. */
    predicate HasAnyDay(caller: string)
      reads this
    {
      exists key :: key in days && key.0 == caller
    }

    /**
     * `POST /`: the body, owned by the caller whatever it names, saved as a new document.
     * A day the caller already has is refused with 400. A body without `id` looks up
     * `{ userId }` alone: any day of the caller counts as existing, and without one the
     * document fails `save()`'s validation. So does one outside the schema's bounds.
     */
    method Create(caller: string, body: Day) returns (r: Result<Day, Error>)
      requires Valid()
      modifies this
      ensures Valid()
      ensures var key := (caller, body.id);
        var doc := NewDocument(body.(userId := Some(caller)));
        if (body.id != "" && key in old(days)) || (body.id == "" && old(HasAnyDay(caller))) then
          r == Failure(DayExists) && days == old(days)
        else if !Validates(doc) then
          r == Failure(ServerError) && days == old(days)
        else
          r == Success(doc) && days == old(days)[key := doc]
    {
      var key := (caller, body.id);
      var existing := if body.id != "" then key in days else HasAnyDay(caller);
      if existing {
        return Failure(DayExists);
      }
      var doc := NewDocument(body.(userId := Some(caller)));
      if !Validates(doc) {
        return Failure(ServerError);
      }
      days := days[key := doc];
      r := Success(doc);
    }

    /**
     * `PUT /:dayId`: `findOneAndUpdate` with `{ ...req.body, userId }` and `upsert`. The body's
     * fields are set on the caller's stored day, or a new document is inserted with the
     * schema's defaults. A body `id` other than `dayId` renames the day, and a rename or
     * insert onto another day of the caller breaks the unique index (500). No validator runs.
     */
    method Update(caller: string, dayId: string, body: Day) returns (r: Result<Day, Error>)
      requires Valid() && dayId != ""
      modifies this
      ensures Valid()
      ensures var newId := if body.id == "" then dayId else body.id;
        var key, newKey := (caller, dayId), (caller, newId);
        var doc := if key in old(days) then Merge(old(days)[key], Patch(body, caller, newId))
                   else NewDocument(Patch(body, caller, newId));
        if newId != dayId && newKey in old(days) then
          r == Failure(ServerError) && days == old(days)
        else
          r == Success(doc) && days == (old(days) - {key})[newKey := doc]
    {
      var newId := if body.id == "" then dayId else body.id;
      var key, newKey := (caller, dayId), (caller, newId);
      if newId != dayId && newKey in days {
        return Failure(ServerError);
      }
      var doc;
      if key in days {
        doc := Merge(days[key], Patch(body, caller, newId));
      } else {
        doc := NewDocument(Patch(body, caller, newId));
      }
      days := (days - {key})[newKey := doc];
      r := Success(doc);
    }

    /** `DELETE /:dayId`: the caller's day removed; 404 when there is none. */
    method Delete(caller: string, dayId: string) returns (r: Result<(), Error>)
      requires Valid()
      modifies this
      ensures Valid()
      ensures (caller, dayId) in old(days) ==> r == Success(()) && days == old(days) - {(caller, dayId)}
      ensures (caller, dayId) !in old(days) ==> r == Failure(DayNotFound) && days == old(days)
    {
      var key := (caller, dayId);
      if key !in days {
        return Failure(DayNotFound);
      }
      days := days - {key};
      r := Success(());
    }

    /**
     * `POST /:dayId/photos/:mealType`: the meal type is checked against the five slots before
     * any lookup; then the caller's day must exist; then one photo is pushed onto that slot
     * and the whole document is saved, which fails when the stored day is outside the
     * schema's bounds. A body without `photo` throws (500).
     */
    method AddPhoto(caller: string, dayId: string, mealType: string, photo: Option<PhotoInput>,
                    generatedId: string, now: int) returns (r: Result<Day, Error>)
      requires Valid()
      modifies this
      ensures Valid()
      ensures ParseMealKey(mealType).None? ==> r == Failure(InvalidMealType) && days == old(days)
      ensures ParseMealKey(mealType).Some? && (caller, dayId) !in old(days) ==>
        r == Failure(DayNotFound) && days == old(days)
      ensures ParseMealKey(mealType).Some? && (caller, dayId) in old(days) && photo.None? ==>
        r == Failure(ServerError) && days == old(days)
      ensures ParseMealKey(mealType).Some? && (caller, dayId) in old(days) && photo.Some? ==>
        var stored := old(days)[(caller, dayId)];
        var p := NewPhoto(photo.value, generatedId, now);
        var saved := stored.(mealPhotos := Some(Meals.AddPhoto(stored.mealPhotos, ParseMealKey(mealType).value, p)));
        if Validates(saved) then r == Success(saved) && days == old(days)[(caller, dayId) := saved]
        else r == Failure(ServerError) && days == old(days)
    {
      var k := ParseMealKey(mealType);
      if k.None? {
        return Failure(InvalidMealType);
      }
      var key := (caller, dayId);
      if key !in days {
        return Failure(DayNotFound);
      }
      if photo.None? {
        return Failure(ServerError);
      }
      var day := days[key];
      var p := NewPhoto(photo.value, generatedId, now);
      day := day.(mealPhotos := Some(Meals.AddPhoto(day.mealPhotos, k.value, p)));
      if !Validates(day) {
        return Failure(ServerError);
      }
      days := days[key := day];
      r := Success(day);
    }

    /**
     * `DELETE /:dayId/photos/:mealType/:photoId`: the same checks, then the photos of that
     * slot with the id filtered out; an id no photo carries changes nothing and succeeds.
     */
    method RemovePhoto(caller: string, dayId: string, mealType: string, photoId: string)
      returns (r: Result<Day, Error>)
      requires Valid()
      modifies this
      ensures Valid()
      ensures ParseMealKey(mealType).None? ==> r == Failure(InvalidMealType) && days == old(days)
      ensures ParseMealKey(mealType).Some? && (caller, dayId) !in old(days) ==>
        r == Failure(DayNotFound) && days == old(days)
      ensures ParseMealKey(mealType).Some? && (caller, dayId) in old(days) ==>
        var stored := old(days)[(caller, dayId)];
        var saved := stored.(mealPhotos := Meals.RemovePhoto(stored.mealPhotos, ParseMealKey(mealType).value, photoId));
        if Validates(saved) then r == Success(saved) && days == old(days)[(caller, dayId) := saved]
        else r == Failure(ServerError) && days == old(days)
    {
      var k := ParseMealKey(mealType);
      if k.None? {
        return Failure(InvalidMealType);
      }
      var key := (caller, dayId);
      if key !in days {
        return Failure(DayNotFound);
      }
      var day := days[key];
      day := day.(mealPhotos := Meals.RemovePhoto(day.mealPhotos, k.value, photoId));
      if !Validates(day) {
        return Failure(ServerError);
      }
      days := days[key := day];
      r := Success(day);
    }
  }

  /** A day created by `POST /` is within the schema's bounds and carries the defaults. */
  lemma CreatedDayValid(caller: string, body: Day)
    requires body.id != "" && InBounds(body)
    ensures Validates(NewDocument(body.(userId := Some(caller))))
    ensures NewDocument(body.(userId := Some(caller))).userId == Some(caller)
  {
  }

  /** Removing a photo id that no photo of the slot carries leaves the photos as they were. */
  lemma RemoveAbsentPhoto(mp: Slots<Photo>, k: MealKey, id: string)
    requires mp.Get(k).Some?
    requires forall i :: 0 <= i < |mp.Get(k).value| ==> mp.Get(k).value[i].id != id
    ensures Meals.RemovePhoto(Some(mp), k, id) == Some(mp)
  {
    WithoutAbsentId(mp.Get(k).value, id);
    var r := Meals.RemovePhoto(Some(mp), k, id).value;
    assert forall k' :: r.Get(k') == mp.Get(k');
    assert r.sabah == mp.sabah by { assert r.Get(Sabah) == mp.Get(Sabah); }
    assert r.araOgun1 == mp.araOgun1 by { assert r.Get(AraOgun1) == mp.Get(AraOgun1); }
    assert r.oglen == mp.oglen by { assert r.Get(Oglen) == mp.Get(Oglen); }
    assert r.araOgun2 == mp.araOgun2 by { assert r.Get(AraOgun2) == mp.Get(AraOgun2); }
    assert r.aksam == mp.aksam by { assert r.Get(Aksam) == mp.Get(Aksam); }
  }
}
