/**
 * The day editor: its own copies of the calorie totals and the three state updaters it hands
 * to its child components.
 */
module DayView {
  import opened Wrappers
  import opened Text
  import opened Kcal
  import opened Meals
  import opened DaySchema
  import opened Calories

  /** `getMealCalories(mealItems)`: 0 for a missing list, else every entry's first annotation. */
  method MealCalories(mealItems: Option<seq<string>>) returns (total: nat)
    ensures total == SlotKcal(mealItems)
  {
    total := 0;
    var items := mealItems.GetOr([]);
    var i := 0;
    while i < |items|
      invariant 0 <= i <= |items|
      invariant total == EntriesKcal(items[..i])
    {
      assert items[..i + 1][..i] == items[..i];
      total := total + ParseKcal(items[i]);
      i := i + 1;
    }
    assert items[..i] == items;
  }

  /**
   * `getTotalCaloriesFromMeals(meals)` of the editor. It has no guard for a missing `meals`
   * (`Object.values(undefined)` throws), so here `meals` is present by its type. Photos are
   * not counted.
   */
  method TotalCaloriesFromMeals(meals: Slots<string>) returns (total: nat)
    ensures total == SlotsKcal(meals)
  {
    total := 0;
    var values := meals.Values();
    var i := 0;
    while i < |values|
      invariant 0 <= i <= |values|
      invariant total == ValuesKcal(values[..i])
    {
      var items := values[i].GetOr([]);
      var j := 0;
      while j < |items|
        invariant 0 <= j <= |items|
        invariant total == ValuesKcal(values[..i]) + EntriesKcal(items[..j])
      {
        assert items[..j + 1][..j] == items[..j];
        total := total + ParseKcal(items[j]);
        j := j + 1;
      }
      assert items[..j] == items;
      assert values[..i + 1][..i] == values[..i];
      i := i + 1;
    }
    assert values[..i] == values;
  }

  /**
   * The editor's total is the sum of its five slot titles, is the schema's
   * `calculatedCalories` of the same meals, and is the shared helper's total without photos.
   */
  lemma EditorTotalAgrees(meals: Slots<string>)
    ensures SlotsKcal(meals) == SlotKcal(meals.Get(Sabah)) + SlotKcal(meals.Get(AraOgun1))
      + SlotKcal(meals.Get(Oglen)) + SlotKcal(meals.Get(AraOgun2)) + SlotKcal(meals.Get(Aksam))
    ensures SlotsKcal(meals) == MealsKcal(Some(meals)) == TotalWithPhotos(Some(meals), None)
  {
    SlotsKcalByKey(meals);
  }

  /**
   * `parseInt(s)` in base 10: leading white space skipped, an optional sign, then the longest
   * run of digits; None (NaN) when there is no digit.
   */
  function ParseInt(s: string): Option<int> {
    var t := TrimStart(s);
    var signed := t != [] && (t[0] == '-' || t[0] == '+');
    var u := if signed then t[1..] else t;
    var e := DigitsEnd(u, 0);
    if e == 0 then None
    else
      var v: int := DecimalValue(u[..e]);
      Some(if signed && t[0] == '-' then -v else v)
  }

  /** `parseInt` of digits followed by anything that is not a digit reads those digits. */
  lemma ParseIntDigitsFirst(ds: string, rest: string)
    requires ds != [] && AllDigits(ds)
    requires rest == [] || !IsDigit(rest[0])
    ensures ParseInt(ds + rest) == Some(DecimalValue(ds))
  {
    var s := ds + rest;
    assert s[0] == ds[0];
    assert TrimStart(s) == s;
    assert forall k :: 0 <= k < |ds| ==> s[k] == ds[k];
    assert |ds| < |s| ==> s[|ds|] == rest[0];
    DigitsEndUnique(s, 0, |ds|);
    assert s[..|ds|] == ds;
  }

  /** `parseInt(String(n))` is `n`, and so is `parseInt` of `n` followed by a non-digit. */
  lemma ParseIntNatToString(n: nat, rest: string)
    requires rest == [] || !IsDigit(rest[0])
    ensures ParseInt(NatToString(n) + rest) == Some(n)
    ensures ParseInt(NatToString(n)) == Some(n)
  {
    ParseIntDigitsFirst(NatToString(n), rest);
    ParseIntDigitsFirst(NatToString(n), []);
    assert NatToString(n) + [] == NatToString(n);
  }

  /** A value with no digit at all reads NaN. */
  lemma ParseIntNoDigit(s: string)
    requires forall k :: 0 <= k < |s| ==> !IsDigit(s[k])
    ensures ParseInt(s).None?
  {
    TrimStartSuffix(s);
  }

  /** `parseInt(x) || 0`: NaN and 0 both give 0. */
  function IntOrZero(s: string): int {
    ParseInt(s).GetOr(0)
  }

  /**
   * `setMeal(key, items)`: `{ ...prev, meals: { ...prev.meals, [key]: items } }`; a missing
   * `meals` spreads as `{}`.
   */
  function SetMeal(d: Day, k: MealKey, items: seq<string>): (r: Day)
    ensures r.meals.Some? && r.meals.value.Get(k) == Some(items)
    ensures forall k' :: k' != k ==> r.meals.value.Get(k') == d.meals.GetOr(NoSlots()).Get(k')
    ensures r.(meals := d.meals) == d
  {
    d.(meals := Some(d.meals.GetOr(NoSlots()).Set(k, Some(items))))
  }

  /** Setting two different slots gives the same day in either order. */
  lemma SetMealCommutes(d: Day, k1: MealKey, items1: seq<string>, k2: MealKey, items2: seq<string>)
    requires k1 != k2
    ensures SetMeal(SetMeal(d, k1, items1), k2, items2) == SetMeal(SetMeal(d, k2, items2), k1, items1)
  {
    var a := SetMeal(SetMeal(d, k1, items1), k2, items2).meals.value;
    var b := SetMeal(SetMeal(d, k2, items2), k1, items1).meals.value;
    assert forall k :: a.Get(k) == b.Get(k);
    assert a.sabah == b.sabah by { assert a.Get(Sabah) == b.Get(Sabah); }
    assert a.araOgun1 == b.araOgun1 by { assert a.Get(AraOgun1) == b.Get(AraOgun1); }
    assert a.oglen == b.oglen by { assert a.Get(Oglen) == b.Get(Oglen); }
    assert a.araOgun2 == b.araOgun2 by { assert a.Get(AraOgun2) == b.Get(AraOgun2); }
    assert a.aksam == b.aksam by { assert a.Get(Aksam) == b.Get(Aksam); }
  }

  /** Setting a slot changes the editor's total by exactly the difference of that slot. */
  lemma SetMealTotal(d: Day, k: MealKey, items: seq<string>)
    requires d.meals.Some?
    ensures SlotsKcal(SetMeal(d, k, items).meals.value)
      == SlotsKcal(d.meals.value) - SlotKcal(d.meals.value.Get(k)) + EntriesKcal(items)
  {
    SlotsKcalByKey(d.meals.value);
    SlotsKcalByKey(SetMeal(d, k, items).meals.value);
  }

  /** `setWaterIntake(amount)`: `parseInt(amount) || 0`, no other field changes. */
  function SetWaterIntake(d: Day, amount: string): (r: Day)
    ensures r.waterIntake == Some(IntOrZero(amount))
    ensures r.(waterIntake := d.waterIntake) == d
  {
    d.(waterIntake := Some(IntOrZero(amount)))
  }

  /** `setStepCount(count)`: `parseInt(count) || 0`, no other field changes. */
  function SetStepCount(d: Day, count: string): (r: Day)
    ensures r.stepCount == Some(IntOrZero(count))
    ensures r.(stepCount := d.stepCount) == d
  {
    d.(stepCount := Some(IntOrZero(count)))
  }

  /** A number typed into either field is stored as that number; a non-number as 0. */
  lemma SetCountersStoreTypedNumber(d: Day, n: nat, junk: string)
    requires forall k :: 0 <= k < |junk| ==> !IsDigit(junk[k])
    ensures SetWaterIntake(d, NatToString(n)).waterIntake == Some(n)
    ensures SetStepCount(d, NatToString(n)).stepCount == Some(n)
    ensures SetWaterIntake(d, junk).waterIntake == Some(0)
    ensures SetStepCount(d, junk).stepCount == Some(0)
  {
    ParseIntNatToString(n, []);
    ParseIntNoDigit(junk);
  }
}
