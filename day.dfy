/**
 * The day record: its fields, the schema's bounds and defaults, the trimming applied when a
 * body is cast to the schema, and the field-wise merge an update performs.
 *
 * A field that a JSON body or a stored document may lack is an `Option`. An `id` of "" stands
 * for a missing id: the schema's `required` validator rejects both.
 */
module DaySchema {
  import opened Wrappers
  import opened Text
  import opened Meals

  datatype Day = Day(
    id: string,
    userId: Option<string>,
    meals: Option<Slots<string>>,
    mealPhotos: Option<Slots<Photo>>,
    activities: Option<seq<string>>,
    notes: Option<string>,
    weight: Option<real>,
    waterIntake: Option<int>,
    stepCount: Option<int>,
    totalCalories: Option<int>)

  predicate InRange(v: Option<int>, lo: int, hi: int) {
    v.None? || lo <= v.value <= hi
  }

  /** The `min`/`max` validators of `weight`, `waterIntake`, `stepCount` and `totalCalories`. */
  predicate InBounds(d: Day) {
    && (d.weight.None? || 0.0 <= d.weight.value <= 1000.0)
    && InRange(d.waterIntake, 0, 10000)
    && InRange(d.stepCount, 0, 100000)
    && InRange(d.totalCalories, 0, 10000)
  }

  /** What `save()` accepts: `id` and `userId` present, every bound respected. */
  predicate Validates(d: Day) {
    d.id != "" && d.userId.Some? && InBounds(d)
  }

  predicate AllTrimmed(xs: seq<string>) {
    forall i :: 0 <= i < |xs| ==> Trimmed(xs[i])
  }

  /** Casting an array of `{ type: String, trim: true }`: every element trimmed, in order. */
  function TrimAll(xs: seq<string>): (r: seq<string>)
    ensures |r| == |xs| && AllTrimmed(r)
    ensures forall i :: 0 <= i < |xs| ==> r[i] == Trim(xs[i])
  {
    seq(|xs|, i requires 0 <= i < |xs| => Trim(xs[i]))
  }

  /** Casting `meals`: the lists that are present are trimmed, missing ones stay missing. */
  function CastSlots(m: Slots<string>): (r: Slots<string>)
    ensures forall k :: r.Get(k).Some? <==> m.Get(k).Some?
    ensures forall k :: m.Get(k).Some? ==> r.Get(k).value == TrimAll(m.Get(k).value)
  {
    Slots(
      if m.sabah.Some? then Some(TrimAll(m.sabah.value)) else None,
      if m.araOgun1.Some? then Some(TrimAll(m.araOgun1.value)) else None,
      if m.oglen.Some? then Some(TrimAll(m.oglen.value)) else None,
      if m.araOgun2.Some? then Some(TrimAll(m.araOgun2.value)) else None,
      if m.aksam.Some? then Some(TrimAll(m.aksam.value)) else None)
  }

  /** A body cast to the schema: the trimmed paths trimmed, every other field as given. */
  function Cast(d: Day): (r: Day)
    ensures r.id == d.id && r.userId == d.userId && r.mealPhotos == d.mealPhotos
    ensures r.weight == d.weight && r.waterIntake == d.waterIntake
    ensures r.stepCount == d.stepCount && r.totalCalories == d.totalCalories
    ensures r.meals.Some? <==> d.meals.Some?
    ensures d.meals.Some? ==> r.meals.value == CastSlots(d.meals.value)
    ensures r.activities.Some? <==> d.activities.Some?
    ensures d.activities.Some? ==> r.activities.value == TrimAll(d.activities.value)
    ensures r.notes.Some? <==> d.notes.Some?
    ensures d.notes.Some? ==> r.notes.value == Trim(d.notes.value)
  {
    d.(
      meals := if d.meals.Some? then Some(CastSlots(d.meals.value)) else None,
      activities := if d.activities.Some? then Some(TrimAll(d.activities.value)) else None,
      notes := if d.notes.Some? then Some(Trim(d.notes.value)) else None)
  }

  /** Missing meal lists default to `[]` on a new document. */
  function FillSlots(m: Option<Slots<string>>): (r: Slots<string>)
    ensures forall k :: r.Get(k) == Some(m.GetOr(NoSlots()).Get(k).GetOr([]))
  {
    var s := m.GetOr(NoSlots());
    Slots(Some(s.sabah.GetOr([])), Some(s.araOgun1.GetOr([])), Some(s.oglen.GetOr([])),
          Some(s.araOgun2.GetOr([])), Some(s.aksam.GetOr([])))
  }

  /**
   * `new Day(data)`: the body cast, then the defaults filled in: every meal list and
   * `activities` default to `[]`, `notes` to "", and `waterIntake`, `stepCount` and
   * `totalCalories` to 0. `id`, `userId`, `weight` and `mealPhotos` are taken as given.
   */
  function NewDocument(d: Day): (r: Day)
    ensures r.id == d.id && r.userId == d.userId && r.weight == d.weight
    ensures r.mealPhotos == d.mealPhotos
    ensures r.meals.Some? && forall k :: r.meals.value.Get(k).Some?
    ensures forall k :: AllTrimmed(r.meals.value.Get(k).value)
    ensures forall k :: |r.meals.value.Get(k).value| == |MealList(d, k)|
    ensures r.activities.Some? && AllTrimmed(r.activities.value)
    ensures r.notes.Some? && Trimmed(r.notes.value)
    ensures d.notes.None? ==> r.notes == Some("")
    ensures r.waterIntake == Some(d.waterIntake.GetOr(0))
    ensures r.stepCount == Some(d.stepCount.GetOr(0))
    ensures r.totalCalories == Some(d.totalCalories.GetOr(0))
  {
    var c := Cast(d);
    c.(
      meals := Some(FillSlots(c.meals)),
      activities := Some(c.activities.GetOr([])),
      notes := Some(c.notes.GetOr("")),
      waterIntake := Some(c.waterIntake.GetOr(0)),
      stepCount := Some(c.stepCount.GetOr(0)),
      totalCalories := Some(c.totalCalories.GetOr(0)))
  }

  /** The list a body gives for slot `k`, empty when `meals` or the slot is missing. */
  function MealList(d: Day, k: MealKey): seq<string> {
    if d.meals.Some? then d.meals.value.Get(k).GetOr([]) else []
  }

  /** Every entry of a new document's meal list is the trimmed entry of the body. */
  lemma NewDocumentTrimsEntries(d: Day, k: MealKey, i: int)
    requires 0 <= i < |MealList(d, k)|
    ensures NewDocument(d).meals.value.Get(k).value[i] == Trim(MealList(d, k)[i])
  {
    var c := Cast(d);
    if d.meals.Some? && d.meals.value.Get(k).Some? {
      assert c.meals.value.Get(k).value == TrimAll(MealList(d, k));
      assert FillSlots(c.meals).Get(k) == c.meals.value.Get(k);
    }
  }

  /** `$set` on one field: the body's value when it carries one, else the stored value. */
  function Over<T>(given: Option<T>, stored: Option<T>): Option<T> {
    if given.Some? then given else stored
  }

  /**
   * The update document `{ ...body, userId }` applied as `$set`: every top-level field the
   * body carries replaces the stored one, every other stored field stays. An empty `id`
   * (a body without `id`) keeps the stored id.
   */
  function Merge(d: Day, patch: Day): Day {
    Day(
      if patch.id == "" then d.id else patch.id,
      Over(patch.userId, d.userId),
      Over(patch.meals, d.meals),
      Over(patch.mealPhotos, d.mealPhotos),
      Over(patch.activities, d.activities),
      Over(patch.notes, d.notes),
      Over(patch.weight, d.weight),
      Over(patch.waterIntake, d.waterIntake),
      Over(patch.stepCount, d.stepCount),
      Over(patch.totalCalories, d.totalCalories))
  }

  /** Applying the same update twice is applying it once. */
  lemma MergeIdempotent(d: Day, patch: Day)
    ensures Merge(Merge(d, patch), patch) == Merge(d, patch)
  {
  }

  /** A body that carries every field replaces the stored record outright. */
  lemma MergeFullBody(d: Day, patch: Day)
    requires patch.id != "" && patch.userId.Some? && patch.meals.Some? && patch.mealPhotos.Some?
    requires patch.activities.Some? && patch.notes.Some? && patch.weight.Some?
    requires patch.waterIntake.Some? && patch.stepCount.Some? && patch.totalCalories.Some?
    ensures Merge(d, patch) == patch
  {
  }

  /** A body that carries nothing but the id it is stored under changes nothing. */
  lemma MergeEmptyBody(d: Day)
    ensures Merge(d, Day(d.id, None, None, None, None, None, None, None, None, None)) == d
  {
  }

  /** The list projection `{ ...day, stepCount: day.stepCount ?? 0, waterIntake: day.waterIntake ?? 0 }`. */
  function Normalize(d: Day): (r: Day)
    ensures r.stepCount.Some? && r.waterIntake.Some?
    ensures d.stepCount.None? ==> r.stepCount == Some(0)
    ensures d.waterIntake.None? ==> r.waterIntake == Some(0)
    ensures d.stepCount.Some? ==> r.stepCount == d.stepCount
    ensures d.waterIntake.Some? ==> r.waterIntake == d.waterIntake
    ensures r.(stepCount := d.stepCount, waterIntake := d.waterIntake) == d
  {
    d.(stepCount := Some(d.stepCount.GetOr(0)), waterIntake := Some(d.waterIntake.GetOr(0)))
  }

  /** Normalising twice is normalising once. */
  lemma NormalizeIdempotent(d: Day)
    ensures Normalize(Normalize(d)) == Normalize(d)
  {
  }
}
