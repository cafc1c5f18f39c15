/**
 * The shared client helpers: the day total including photo calories, today's id, the empty
 * day and the demo day.
 */
module Helpers {
  import opened Wrappers
  import opened Text
  import opened Kcal
  import opened Meals
  import opened DaySchema
  import opened Calories

  /**
   * `getTotalCaloriesFromMeals(meals, mealPhotos)`: 0 without `meals`; otherwise every entry's
   * first annotation plus every photo's calories.
   */
  method TotalCaloriesFromMeals(meals: Option<Slots<string>>, mealPhotos: Option<Slots<Photo>>)
    returns (total: int)
    ensures total == TotalWithPhotos(meals, mealPhotos)
  {
    total := 0;
    if meals.None? {
      return 0;
    }
    var values := meals.value.Values();
    var i := 0;
    while i < |values|
      invariant 0 <= i <= |values|
      invariant total == ValuesKcal(values[..i])
    {
      var items := values[i].GetOr([]);
      var j := 0;
      while j < |items|
        invariant 0 <= j <= |items|
        invariant total == ValuesKcal(values[..i]) + EntriesKcal(items[..j])
      {
        assert items[..j + 1][..j] == items[..j];
        total := total + ParseKcal(items[j]);
        j := j + 1;
      }
      assert items[..j] == items;
      assert values[..i + 1][..i] == values[..i];
      i := i + 1;
    }
    assert values[..i] == values;
    if mealPhotos.Some? {
      var slots := mealPhotos.value.Values();
      var m := 0;
      while m < |slots|
        invariant 0 <= m <= |slots|
        invariant total == MealsKcal(meals) + PhotoValuesKcal(slots[..m])
      {
        var photos := slots[m].GetOr([]);
        var n := 0;
        while n < |photos|
          invariant 0 <= n <= |photos|
          invariant total == MealsKcal(meals) + PhotoValuesKcal(slots[..m]) + PhotosKcal(photos[..n])
        {
          assert photos[..n + 1][..n] == photos[..n];
          total := total + PhotoKcal(photos[n]);
          n := n + 1;
        }
        assert photos[..n] == photos;
        assert slots[..m + 1][..m] == slots[..m];
        m := m + 1;
      }
      assert slots[..m] == slots;
    }
  }

  /** `String(year)`: the decimal digits, after a minus sign for a negative year. */
  function YearString(year: int): string {
    if year < 0 then "-" + NatToString(-year) else NatToString(year)
  }

  /**
   * `isoToday()` for the local date `year`, `monthIndex` (0 for January, as `getMonth`
   * returns it) and `date`: `${year}-${MM}-${DD}` with month and day padded to two digits.
   */
  function IsoToday(year: int, monthIndex: int, date: int): (r: string)
    requires 0 <= monthIndex < 12 && 1 <= date <= 31
    ensures var n := |YearString(year)|;
      && |r| == n + 6 && r[..n] == YearString(year) && r[n] == '-' && r[n + 3] == '-'
      && AllDigits(r[n + 1..n + 3]) && DecimalValue(r[n + 1..n + 3]) == monthIndex + 1
      && AllDigits(r[n + 4..]) && DecimalValue(r[n + 4..]) == date
  {
    var y, mm, dd := YearString(year), PadTwo(monthIndex + 1), PadTwo(date);
    DateParts(y, mm, dd, '-');
    y + "-" + mm + "-" + dd
  }

  /** Where the year, the two dashes, the month and the day sit in `y-mm-dd`. */
  lemma DateParts<C>(y: seq<C>, mm: seq<C>, dd: seq<C>, dash: C)
    requires |mm| == 2 && |dd| == 2
    ensures var r, n := y + [dash] + mm + [dash] + dd, |y|;
      && |r| == n + 6 && r[..n] == y && r[n] == dash && r[n + 1..n + 3] == mm
      && r[n + 3] == dash && r[n + 4..] == dd
  {
  }

  /**
   * For a four-digit year the id has the `full-date` shape of RFC 3339, section 5.6
   * (`YYYY-MM-DD`), and it reads back as the date it was made from.
   */
  lemma IsoTodayReadsBack(year: int, monthIndex: int, date: int)
    requires 1000 <= year <= 9999 && 0 <= monthIndex < 12 && 1 <= date <= 31
    ensures var r := IsoToday(year, monthIndex, date);
      && |r| == 10 && r[4] == '-' && r[7] == '-'
      && AllDigits(r[..4]) && DecimalValue(r[..4]) == year
      && AllDigits(r[5..7]) && DecimalValue(r[5..7]) == monthIndex + 1
      && AllDigits(r[8..]) && DecimalValue(r[8..]) == date
  {
    var y, mm, dd := NatToString(year), PadTwo(monthIndex + 1), PadTwo(date);
    NatToStringLength(year, 4);
    var r := IsoToday(year, monthIndex, date);
    assert r == y + "-" + mm + "-" + dd;
    assert r[..4] == y && r[5..7] == mm && r[8..] == dd;
  }

  /** The year, month and day of two dates compare lexicographically. */
  predicate DateBefore(y1: int, m1: int, d1: int, y2: int, m2: int, d2: int) {
    y1 < y2 || (y1 == y2 && (m1 < m2 || (m1 == m2 && d1 < d2)))
  }

  lemma PadTwoOrder(a: nat, b: nat)
    requires a < 100 && b < 100
    ensures Below(PadTwo(a), PadTwo(b)) <==> a < b
    ensures PadTwo(a) == PadTwo(b) <==> a == b
  {
    BelowDigits(PadTwo(a), PadTwo(b));
  }

  /** Two strings whose first parts have one length are equal when both parts are. */
  lemma ConcatEqual(p: string, q: string, s: string, t: string)
    requires |p| == |q|
    ensures p + s == q + t <==> p == q && s == t
  {
    if p + s == q + t {
      assert p == (p + s)[..|p|] && q == (q + t)[..|q|];
      assert s == (p + s)[|p|..] && t == (q + t)[|q|..];
    }
  }

  /** The `-MM-DD` part of two ids compares month first, then day. */
  lemma MonthDayOrder(ma: string, mb: string, da: string, db: string)
    requires |ma| == |mb|
    ensures Below("-" + (ma + ("-" + da)), "-" + (mb + ("-" + db)))
      <==> Below(ma, mb) || (ma == mb && Below(da, db))
    ensures "-" + (ma + ("-" + da)) == "-" + (mb + ("-" + db)) <==> ma == mb && da == db
  {
    BelowConcat("-", "-", ma + ("-" + da), mb + ("-" + db));
    BelowConcat(ma, mb, "-" + da, "-" + db);
    BelowConcat("-", "-", da, db);
    BelowIrreflexive("-");
    ConcatEqual("-", "-", ma + ("-" + da), mb + ("-" + db));
    ConcatEqual(ma, mb, "-" + da, "-" + db);
    ConcatEqual("-", "-", da, db);
  }

  lemma DashesRegroup<C>(a: seq<C>, b: seq<C>, c: seq<C>, dash: seq<C>)
    ensures a + dash + b + dash + c == a + (dash + (b + (dash + c)))
  {
  }

  lemma IsoTodayParts(y: int, m: int, d: int)
    requires 0 <= y && 0 <= m < 12 && 1 <= d <= 31
    ensures IsoToday(y, m, d) == NatToString(y) + ("-" + (PadTwo(m + 1) + ("-" + PadTwo(d))))
  {
    var a, b, c := NatToString(y), PadTwo(m + 1), PadTwo(d);
    assert YearString(y) == a;
    DashesRegroup(a, b, c, "-");
  }

  /** Four-digit years compare as strings exactly as they compare as numbers. */
  lemma YearOrder(y1: int, y2: int)
    requires 1000 <= y1 <= 9999 && 1000 <= y2 <= 9999
    ensures |NatToString(y1)| == 4 && |NatToString(y2)| == 4
    ensures Below(NatToString(y1), NatToString(y2)) <==> y1 < y2
    ensures NatToString(y1) == NatToString(y2) <==> y1 == y2
  {
    assert Pow10(3) == 1000 && Pow10(4) == 10000 by {
      assert Pow10(1) == 10 && Pow10(2) == 100;
    }
    NatToStringLength(y1, 4);
    NatToStringLength(y2, 4);
    BelowDigits(NatToString(y1), NatToString(y2));
    if NatToString(y1) == NatToString(y2) {
      NatToStringInjective(y1, y2);
    }
  }

  /** The `-MM-DD` tails of two ids compare as their months, then their days. */
  lemma TailOrder(m1: int, d1: int, m2: int, d2: int)
    requires 0 <= m1 < 12 && 1 <= d1 <= 31 && 0 <= m2 < 12 && 1 <= d2 <= 31
    ensures var ta, tb := "-" + (PadTwo(m1 + 1) + ("-" + PadTwo(d1))), "-" + (PadTwo(m2 + 1) + ("-" + PadTwo(d2)));
      && (Below(ta, tb) <==> (m1 < m2 || (m1 == m2 && d1 < d2)))
      && (ta == tb <==> (m1 == m2 && d1 == d2))
  {
    MonthDayOrder(PadTwo(m1 + 1), PadTwo(m2 + 1), PadTwo(d1), PadTwo(d2));
    PadTwoOrder(m1 + 1, m2 + 1);
    PadTwoOrder(d1, d2);
  }

  /** Two keys made of a head of one length and a tail compare head first, then tail. */
  lemma KeyOrder(ya: string, yb: string, ta: string, tb: string)
    requires |ya| == |yb|
    ensures Below(ya + ta, yb + tb) <==> Below(ya, yb) || (ya == yb && Below(ta, tb))
    ensures ya + ta == yb + tb <==> ya == yb && ta == tb
  {
    BelowConcat(ya, yb, ta, tb);
    ConcatEqual(ya, yb, ta, tb);
  }

  /**
   * For four-digit years, comparing two day ids as strings compares the dates: the order
   * used to sort days newest first is the calendar order.
   */
  lemma IsoTodayOrder(y1: int, m1: int, d1: int, y2: int, m2: int, d2: int)
    requires 1000 <= y1 <= 9999 && 0 <= m1 < 12 && 1 <= d1 <= 31
    requires 1000 <= y2 <= 9999 && 0 <= m2 < 12 && 1 <= d2 <= 31
    ensures Below(IsoToday(y1, m1, d1), IsoToday(y2, m2, d2)) <==> DateBefore(y1, m1, d1, y2, m2, d2)
    ensures IsoToday(y1, m1, d1) == IsoToday(y2, m2, d2) <==> (y1 == y2 && m1 == m2 && d1 == d2)
  {
    IsoTodayParts(y1, m1, d1);
    IsoTodayParts(y2, m2, d2);
    YearOrder(y1, y2);
    TailOrder(m1, d1, m2, d2);
    KeyOrder(NatToString(y1), NatToString(y2),
      "-" + (PadTwo(m1 + 1) + ("-" + PadTwo(d1))), "-" + (PadTwo(m2 + 1) + ("-" + PadTwo(d2))));
  }

  /** `emptyDay(id)`: five empty meal lists, no activities, zero water, steps and total. */
  function EmptyDay(id: string): (r: Day)
    ensures r.id == id && r.userId.None? && r.mealPhotos.None?
    ensures r.notes.None? && r.weight.None?
    ensures r.meals.Some? && forall k :: r.meals.value.Get(k) == Some([])
    ensures r.activities == Some([])
    ensures r.waterIntake == Some(0) && r.stepCount == Some(0) && r.totalCalories == Some(0)
  {
    Day(id, None, Some(EmptySlots()), None, Some([]), None, None, Some(0), Some(0), Some(0))
  }

  /** The empty day is worth 0 calories, and so agrees with its own `totalCalories`. */
  lemma EmptyDayTotalZero(id: string)
    ensures MealsKcal(EmptyDay(id).meals) == 0
    ensures TotalWithPhotos(EmptyDay(id).meals, EmptyDay(id).mealPhotos) == 0
  {
    SlotsKcalByKey(EmptySlots());
  }

  /** `createDemoDay(id)`: the sample day with eight annotated meal entries. */
  function DemoDay(id: string): (r: Day)
    ensures r.id == id && r.userId == Some("demo-user")
    ensures r.totalCalories == Some(935)
  {
    Day(
      id,
      Some("demo-user"),
      Some(Slots(
        Some(["Ekmek 150 kcal", "Peynir 100 kcal"]),
        Some(["Elma 50 kcal"]),
        Some(["Pilav 200 kcal", "Tavuk 150 kcal"]),
        Some(["Çay 5 kcal"]),
        Some(["Makarna 250 kcal", "Salata 30 kcal"]))),
      None,
      Some(["30 dakika yürüyüş"]),
      None,
      None,
      Some(8),
      Some(5000),
      Some(935))
  }

  /** An entry `<name> <digits> kcal` whose name has no digit is worth its digits. */
  lemma SpacedEntryValue(name: string, ds: string)
    requires NoDigits(name) && ds != [] && AllDigits(ds)
    ensures ParseKcal(name + " " + ds + " kcal") == DecimalValue(ds)
  {
    AnnotatedValue(name + " ", ds, " ", "kcal", "");
    SpacedUnit(name + " " + ds);
    assert NoDigits(name + " ") by {
      forall k | 0 <= k < |name + " "|
        ensures !IsDigit((name + " ")[k])
      {
        if k < |name| {
          assert (name + " ")[k] == name[k];
        }
      }
    }
  }

  /** The unit written after a space, as the helper's callers spell it. */
  lemma SpacedUnit(a: string)
    ensures a + " " + "kcal" + "" == a + " kcal"
  {
    assert " " + "kcal" == " kcal";
    assert a + " " + "kcal" == a + (" " + "kcal");
  }

  lemma TwoDigits(ds: string)
    requires |ds| == 2 && AllDigits(ds)
    ensures DecimalValue(ds) == 10 * DigitValue(ds[0]) + DigitValue(ds[1])
  {
    assert ds[..1][..0] == [] && ds[..1][0] == ds[0];
    assert DecimalValue(ds[..1]) == DigitValue(ds[0]);
  }

  lemma ThreeDigits(ds: string)
    requires |ds| == 3 && AllDigits(ds)
    ensures DecimalValue(ds) == 100 * DigitValue(ds[0]) + 10 * DigitValue(ds[1]) + DigitValue(ds[2])
  {
    TwoDigits(ds[..2]);
  }

  /** An entry spelled `<name> <digits> kcal` with a digit-free name is worth its digits. */
  lemma EntryLiteral(name: string, ds: string, entry: string)
    requires NoDigits(name) && ds != [] && AllDigits(ds)
    requires entry == name + " " + ds + " kcal"
    ensures ParseKcal(entry) == DecimalValue(ds)
  {
    SpacedEntryValue(name, ds);
  }

  // One lemma per demo entry: each keeps the literal evaluation of one entry in a proof of its own.

  lemma EkmekKcal() ensures ParseKcal("Ekmek 150 kcal") == 150 {
    EntryLiteral("Ekmek", "150", "Ekmek 150 kcal");
    ThreeDigits("150");
  }

  lemma PeynirKcal() ensures ParseKcal("Peynir 100 kcal") == 100 {
    EntryLiteral("Peynir", "100", "Peynir 100 kcal");
    ThreeDigits("100");
  }

  lemma ElmaKcal() ensures ParseKcal("Elma 50 kcal") == 50 {
    EntryLiteral("Elma", "50", "Elma 50 kcal");
    TwoDigits("50");
  }

  lemma PilavKcal() ensures ParseKcal("Pilav 200 kcal") == 200 {
    EntryLiteral("Pilav", "200", "Pilav 200 kcal");
    ThreeDigits("200");
  }

  lemma TavukKcal() ensures ParseKcal("Tavuk 150 kcal") == 150 {
    EntryLiteral("Tavuk", "150", "Tavuk 150 kcal");
    ThreeDigits("150");
  }

  lemma CayKcal() ensures ParseKcal("Çay 5 kcal") == 5 {
    EntryLiteral("Çay", "5", "Çay 5 kcal");
    assert "5"[..0] == [];
  }

  lemma MakarnaKcal() ensures ParseKcal("Makarna 250 kcal") == 250 {
    EntryLiteral("Makarna", "250", "Makarna 250 kcal");
    ThreeDigits("250");
  }

  lemma SalataKcal() ensures ParseKcal("Salata 30 kcal") == 30 {
    EntryLiteral("Salata", "30", "Salata 30 kcal");
    TwoDigits("30");
  }

  /** The demo day's stored `totalCalories` is the total of its entries. */
  lemma DemoDayTotal(id: string)
    ensures MealsKcal(DemoDay(id).meals) == DemoDay(id).totalCalories.value
    ensures TotalWithPhotos(DemoDay(id).meals, DemoDay(id).mealPhotos) == 935
  {
    var m := DemoDay(id).meals.value;
    SlotsKcalByKey(m);
    EkmekKcal();
    PeynirKcal();
    ElmaKcal();
    PilavKcal();
    TavukKcal();
    CayKcal();
    MakarnaKcal();
    SalataKcal();
    PairKcal("Ekmek 150 kcal", "Peynir 100 kcal");
    PairKcal("Pilav 200 kcal", "Tavuk 150 kcal");
    PairKcal("Makarna 250 kcal", "Salata 30 kcal");
    SingleKcal("Elma 50 kcal");
    SingleKcal("Çay 5 kcal");
  }

  lemma SingleKcal(a: string)
    ensures EntriesKcal([a]) == ParseKcal(a)
  {
    assert [a][..0] == [];
  }

  lemma PairKcal(a: string, b: string)
    ensures EntriesKcal([a, b]) == ParseKcal(a) + ParseKcal(b)
  {
    assert [a, b][..1] == [a] && [a][..0] == [];
    assert EntriesKcal([a]) == ParseKcal(a);
  }
}
