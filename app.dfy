/**
 * The day list kept by the main page: the list's calorie total per day, the update of one day in
 * the list, the list loaded at start-up, the expanded/collapsed flag of each day, and the
 * pagination of the list.
 */
module App {
  import opened Wrappers
  import opened Text
  import opened Kcal
  import opened Meals
  import opened DaySchema
  import opened DayOrder
  import opened Calories
  import Helpers
  import Client

  /** `getTotalCaloriesFromMeals(meals)` of the main page: 0 without `meals`, photos ignored. */
  method TotalCaloriesFromMeals(meals: Option<Slots<string>>) returns (total: nat)
    ensures total == MealsKcal(meals)
  {
    total := 0;
    if meals.None? {
      return 0;
    }
    var values := meals.value.Values();
    var i := 0;
    while i < |values|
      invariant 0 <= i <= |values|
      invariant total == ValuesKcal(values[..i])
    {
      var items := values[i].GetOr([]);
      var j := 0;
      while j < |items|
        invariant 0 <= j <= |items|
        invariant total == ValuesKcal(values[..i]) + EntriesKcal(items[..j])
      {
        assert items[..j + 1][..j] == items[..j];
        var digits := KcalDigits(items[j]);
        if digits.Some? {
          total := total + DecimalValue(digits.value);
        }
        j := j + 1;
      }
      assert items[..j] == items;
      assert values[..i + 1][..i] == values[..i];
      i := i + 1;
    }
    assert values[..i] == values;
  }

  /**
   * `setDayInList(updated)`: a day whose id is in the list replaces the first day with that id,
   * in place; a new day is appended and the list sorted by id, newest first.
   */
  method SetDayInList(prev: seq<Day>, updated: Day) returns (r: seq<Day>)
    ensures FirstWithId(prev, updated.id) >= 0 ==> r == prev[FirstWithId(prev, updated.id) := updated]
    ensures FirstWithId(prev, updated.id) < 0 ==> r == SortDesc(prev + [updated])
  {
    var existingIndex := 0;
    while existingIndex < |prev| && prev[existingIndex].id != updated.id
      invariant 0 <= existingIndex <= |prev|
      invariant forall k :: 0 <= k < existingIndex ==> prev[k].id != updated.id
    {
      existingIndex := existingIndex + 1;
    }
    if existingIndex < |prev| {
      assert FirstWithId(prev, updated.id) == existingIndex;
      var newDays := prev;
      newDays := newDays[existingIndex := updated];
      r := newDays;
    } else {
      assert !HasId(prev, updated.id);
      r := SortDesc(prev + [updated]);
    }
  }

  /**
   * After `setDayInList(updated)` the updated day is in the list and is the only day that
   * changed: a known id keeps the length and every other position, a new id adds exactly that
   * day to a list sorted newest first.
   */
  lemma SetDayInListKeepsOthers(prev: seq<Day>, updated: Day, r: seq<Day>)
    requires FirstWithId(prev, updated.id) >= 0 ==> r == prev[FirstWithId(prev, updated.id) := updated]
    requires FirstWithId(prev, updated.id) < 0 ==> r == SortDesc(prev + [updated])
    ensures updated in r
    ensures HasId(prev, updated.id) ==>
      && |r| == |prev|
      && forall k :: 0 <= k < |r| && prev[k].id != updated.id ==> r[k] == prev[k]
    ensures !HasId(prev, updated.id) ==>
      && |r| == |prev| + 1
      && SortedDesc(r)
      && multiset(r) == multiset(prev) + multiset{updated}
  {
    var i := FirstWithId(prev, updated.id);
    if i < 0 {
      SortedWithNewDay(prev, updated);
    } else {
      ReplacedKeepsOthers(prev, i, updated);
    }
  }

  /** Replacing the first day with the id of `updated` keeps every day with another id. */
  lemma ReplacedKeepsOthers(prev: seq<Day>, i: int, updated: Day)
    requires 0 <= i < |prev| && prev[i].id == updated.id
    ensures var r := prev[i := updated];
      && updated in r && |r| == |prev|
      && forall k :: 0 <= k < |r| && prev[k].id != updated.id ==> r[k] == prev[k]
  {
    assert prev[i := updated][i] == updated;
  }

  /** The list with a new day appended and sorted newest first holds that day once more. */
  lemma SortedWithNewDay(prev: seq<Day>, updated: Day)
    ensures var r := SortDesc(prev + [updated]);
      && updated in r && |r| == |prev| + 1 && SortedDesc(r)
      && multiset(r) == multiset(prev) + multiset{updated}
  {
    assert multiset(prev + [updated]) == multiset(prev) + multiset{updated};
    SortDescMembers(prev + [updated], updated);
  }

  /** What `getDays()` gave at start-up. */
  datatype Loaded = Threw | NotAnArray | Days(days: seq<Day>)

  /**
   * `bootstrap()`: the loaded days (none when the response is not an array); when no day has
   * today's id, the day `upsertDay(emptyDay(todayId))` returned (`created`, None when it threw)
   * is appended; then the list is sorted newest first. Either call throwing leaves the list
   * empty.
   */
  method Bootstrap(all: Loaded, todayId: string, created: Option<Day>) returns (days: seq<Day>)
    ensures all.Threw? ==> days == []
    ensures !all.Threw? ==> var base := if all.Days? then all.days else [];
      if HasId(base, todayId) then days == SortDesc(base)
      else if created.None? then days == []
      else days == SortDesc(base + [created.value])
  {
    if all.Threw? {
      return [];
    }
    var allDays := if all.Days? then all.days else [];
    var i := 0;
    while i < |allDays| && allDays[i].id != todayId
      invariant 0 <= i <= |allDays|
      invariant forall k :: 0 <= k < i ==> allDays[k].id != todayId
    {
      i := i + 1;
    }
    if i == |allDays| {
      if created.None? {
        return [];
      }
      allDays := allDays + [created.value];
    }
    days := SortDesc(allDays);
  }

  /**
   * After a successful `bootstrap` in which the created day carries today's id, a day with
   * today's id is in the list, the list is sorted newest first, and every loaded day is kept.
   */
  lemma BootstrapHasToday(all: Loaded, todayId: string, created: Option<Day>, days: seq<Day>)
    requires !all.Threw?
    requires var base := if all.Days? then all.days else [];
      if HasId(base, todayId) then days == SortDesc(base)
      else if created.None? then days == []
      else days == SortDesc(base + [created.value])
    requires created.Some? ==> created.value.id == todayId
    requires (all.Days? && HasId(all.days, todayId)) || created.Some?
    ensures HasId(days, todayId) && SortedDesc(days)
    ensures all.Days? ==> forall d :: d in all.days ==> d in days
  {
    var base := if all.Days? then all.days else [];
    if HasId(base, todayId) {
      var t :| t in base && t.id == todayId;
      SortDescMembers(base, t);
      forall d | d in base
        ensures d in days
      {
        SortDescMembers(base, d);
      }
    } else {
      SortDescMembers(base + [created.value], created.value);
      forall d | d in base
        ensures d in days
      {
        SortDescMembers(base + [created.value], d);
      }
    }
  }
  /**
   * With the browser's demo store, the created day is `upsertDay(emptyDay(todayId))`: the
   * empty day stamped with the demo user, which keeps today's id. So a successful start-up
   * always shows today's day, sorted newest first, with every loaded day kept.
   */
  lemma DemoBootstrapHasToday(all: Loaded, todayId: string, days: seq<Day>)
    requires !all.Threw?
    requires var base := if all.Days? then all.days else [];
      var created := Client.Stamped(Helpers.EmptyDay(todayId));
      if HasId(base, todayId) then days == SortDesc(base) else days == SortDesc(base + [created])
    ensures HasId(days, todayId) && SortedDesc(days)
    ensures all.Days? ==> forall d :: d in all.days ==> d in days
  {
    var created := Client.Stamped(Helpers.EmptyDay(todayId));
    assert created.id == todayId;
    BootstrapHasToday(all, todayId, Some(created), days);
  }


  /** A day is expanded when its flag is set; a day never toggled is collapsed. */
  function Expanded(flags: map<string, bool>, id: string): bool {
    id in flags && flags[id]
  }

  /** `toggleDayExpansion(dayId)`: `{ ...prev, [dayId]: !prev[dayId] }`. */
  function ToggleDayExpansion(flags: map<string, bool>, dayId: string): (r: map<string, bool>)
    ensures Expanded(r, dayId) == !Expanded(flags, dayId)
    ensures forall id :: id != dayId ==> Expanded(r, id) == Expanded(flags, id)
    ensures r.Keys == flags.Keys + {dayId}
  {
    flags[dayId := !Expanded(flags, dayId)]
  }

  /** Toggling a day twice leaves every day as it was. */
  lemma ToggleTwice(flags: map<string, bool>, dayId: string, id: string)
    ensures Expanded(ToggleDayExpansion(ToggleDayExpansion(flags, dayId), dayId), id)
      == Expanded(flags, id)
  {
  }

  /** `itemsPerPage`. */
  const PerPage: nat := 10

  /** `Math.ceil(totalItems / itemsPerPage)`. */
  function TotalPages(n: nat): (r: nat)
    ensures (r - 1) * PerPage < n <= r * PerPage || (n == 0 && r == 0)
  {
    (n + PerPage - 1) / PerPage
  }

  /** `days.slice(startIndex, endIndex)` for page `page`, the bounds clamped as `slice` does. */
  function PageSlice(days: seq<Day>, page: int): (r: seq<Day>)
    requires page >= 1
    ensures |r| <= PerPage
    ensures |r| > 0 ==> (page - 1) * PerPage + |r| <= |days|
    ensures (page - 1) * PerPage + PerPage <= |days| ==> |r| == PerPage
    ensures (page - 1) * PerPage <= |days| < (page - 1) * PerPage + PerPage ==>
      |r| == |days| - (page - 1) * PerPage
    ensures forall k :: 0 <= k < |r| ==> r[k] == days[(page - 1) * PerPage + k]
  {
    var start := (page - 1) * PerPage;
    var end := start + PerPage;
    var n := |days|;
    var lo := if start < n then start else n;
    var hi := if end < n then end else n;
    assert lo == n ==> hi == n;
    days[lo..hi]
  }

  /** Every day is shown on exactly the page its index falls in, at its place on that page. */
  lemma PagesCover(days: seq<Day>, i: nat)
    requires i < |days|
    ensures 1 <= i / PerPage + 1 <= TotalPages(|days|)
    ensures var page := i / PerPage + 1;
      i % PerPage < |PageSlice(days, page)| && PageSlice(days, page)[i % PerPage] == days[i]
  {
    var page := i / PerPage + 1;
    assert (page - 1) * PerPage + i % PerPage == i;
    assert (page - 1) * PerPage <= i;
  }

  /** The previous-page button: `Math.max(prev - 1, 1)`. */
  function PrevPage(page: int): int {
    if page - 1 > 1 then page - 1 else 1
  }

  /** The next-page button: `Math.min(prev + 1, totalPages)`. */
  function NextPage(page: int, totalPages: int): int {
    if page + 1 < totalPages then page + 1 else totalPages
  }

  /**
   * The buttons keep the page within `[1, totalPages]`; each moves by one page except where
   * it is disabled, on the first and last page.
   */
  lemma PageButtonsStayInRange(page: int, totalPages: int)
    requires 1 <= page <= totalPages
    ensures 1 <= PrevPage(page) <= totalPages && 1 <= NextPage(page, totalPages) <= totalPages
    ensures PrevPage(page) == page <==> page == 1
    ensures page > 1 ==> PrevPage(page) == page - 1
    ensures NextPage(page, totalPages) == page <==> page == totalPages
    ensures page < totalPages ==> NextPage(page, totalPages) == page + 1
  {
  }

  /** The page buttons `Array.from({ length: totalPages }, (_, i) => i + 1)`. */
  function PageNumbers(totalPages: nat): (r: seq<nat>)
    ensures |r| == totalPages
    ensures forall k :: 0 <= k < |r| ==> r[k] == k + 1
  {
    seq(totalPages, k => k + 1)
  }

  /** The pagination controls are shown (`totalPages > 1`) exactly when there are more than ten days. */
  lemma ControlsShown(n: nat)
    ensures TotalPages(n) > 1 <==> n > PerPage
  {
  }
}
