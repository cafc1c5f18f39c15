/**
 * The calorie totals of a day, as reference definitions, and the `calculatedCalories` virtual
 * of the day schema, which computes one of them with nested loops.
 *
 * Every sum is taken from the end of its list, so a loop that walks a list front to back
 * adds exactly the last term of the next prefix.
 */
module Calories {
  import opened Wrappers
  import opened Text
  import opened Kcal
  import opened Meals

  /** The calories of a list of entries: each entry's first annotation, 0 without one. */
  function EntriesKcal(items: seq<string>): nat
    decreases |items|
  {
    if items == [] then 0 else EntriesKcal(items[..|items| - 1]) + ParseKcal(items[|items| - 1])
  }

  /** `(arr || [])`: a missing list contributes nothing. */
  function SlotKcal(slot: Option<seq<string>>): nat {
    EntriesKcal(slot.GetOr([]))
  }

  /** The sum of `SlotKcal` over a sequence of slot values. */
  function ValuesKcal(vs: seq<Option<seq<string>>>): nat
    decreases |vs|
  {
    if vs == [] then 0 else ValuesKcal(vs[..|vs| - 1]) + SlotKcal(vs[|vs| - 1])
  }

  /** The entries of all five slots. */
  function SlotsKcal(m: Slots<string>): nat {
    ValuesKcal(m.Values())
  }

  /** The entries of a day's meals, 0 when `meals` is missing. */
  function MealsKcal(meals: Option<Slots<string>>): nat {
    if meals.Some? then SlotsKcal(meals.value) else 0
  }

  /** `parseInt(photo.calories) || 0`: NaN counts 0; a negative value is kept. */
  function PhotoKcal(p: Photo): int {
    p.calories.GetOr(0)
  }

  function PhotosKcal(ps: seq<Photo>): int
    decreases |ps|
  {
    if ps == [] then 0 else PhotosKcal(ps[..|ps| - 1]) + PhotoKcal(ps[|ps| - 1])
  }

  function PhotoValuesKcal(vs: seq<Option<seq<Photo>>>): int
    decreases |vs|
  {
    if vs == [] then 0 else PhotoValuesKcal(vs[..|vs| - 1]) + PhotosKcal(vs[|vs| - 1].GetOr([]))
  }

  /** The photos of all five slots, 0 when `mealPhotos` is missing. */
  function AllPhotosKcal(mp: Option<Slots<Photo>>): int {
    if mp.Some? then PhotoValuesKcal(mp.value.Values()) else 0
  }

  /** The total shown with photos: 0 without `meals`, photos or not. */
  function TotalWithPhotos(meals: Option<Slots<string>>, mp: Option<Slots<Photo>>): int {
    if meals.None? then 0 else MealsKcal(meals) + AllPhotosKcal(mp)
  }

  /** The calories of a list are the calories of its parts. */
  lemma {:induction false} EntriesKcalAppend(xs: seq<string>, ys: seq<string>)
    ensures EntriesKcal(xs + ys) == EntriesKcal(xs) + EntriesKcal(ys)
    decreases |ys|
  {
    if ys == [] {
      assert xs + ys == xs;
    } else {
      var ys' := ys[..|ys| - 1];
      assert (xs + ys)[..|xs + ys| - 1] == xs + ys';
      EntriesKcalAppend(xs, ys');
    }
  }

  lemma {:induction false} PhotosKcalAppend(ps: seq<Photo>, qs: seq<Photo>)
    ensures PhotosKcal(ps + qs) == PhotosKcal(ps) + PhotosKcal(qs)
    decreases |qs|
  {
    if qs == [] {
      assert ps + qs == ps;
    } else {
      var qs' := qs[..|qs| - 1];
      assert (ps + qs)[..|ps + qs| - 1] == ps + qs';
      PhotosKcalAppend(ps, qs');
    }
  }

  /** The day's entries are the sum of the five slots' entries. */
  lemma SlotsKcalByKey(m: Slots<string>)
    ensures SlotsKcal(m) == SlotKcal(m.Get(Sabah)) + SlotKcal(m.Get(AraOgun1))
      + SlotKcal(m.Get(Oglen)) + SlotKcal(m.Get(AraOgun2)) + SlotKcal(m.Get(Aksam))
  {
    var vs := m.Values();
    assert vs[..4][..3] == vs[..3] && vs[..3][..2] == vs[..2];
    assert vs[..2][..1] == vs[..1] && vs[..1][..0] == [];
    assert ValuesKcal(vs) == ValuesKcal(vs[..4]) + SlotKcal(vs[4]);
    assert ValuesKcal(vs[..4]) == ValuesKcal(vs[..3]) + SlotKcal(vs[3]);
    assert ValuesKcal(vs[..3]) == ValuesKcal(vs[..2]) + SlotKcal(vs[2]);
    assert ValuesKcal(vs[..2]) == ValuesKcal(vs[..1]) + SlotKcal(vs[1]);
  }

  lemma PhotosByKey(s: Slots<Photo>)
    ensures AllPhotosKcal(Some(s)) == PhotosKcal(s.Get(Sabah).GetOr([]))
      + PhotosKcal(s.Get(AraOgun1).GetOr([])) + PhotosKcal(s.Get(Oglen).GetOr([]))
      + PhotosKcal(s.Get(AraOgun2).GetOr([])) + PhotosKcal(s.Get(Aksam).GetOr([]))
  {
    var vs := s.Values();
    assert vs[..4][..3] == vs[..3] && vs[..3][..2] == vs[..2];
    assert vs[..2][..1] == vs[..1] && vs[..1][..0] == [];
    assert PhotoValuesKcal(vs) == PhotoValuesKcal(vs[..4]) + PhotosKcal(vs[4].GetOr([]));
    assert PhotoValuesKcal(vs[..4]) == PhotoValuesKcal(vs[..3]) + PhotosKcal(vs[3].GetOr([]));
    assert PhotoValuesKcal(vs[..3]) == PhotoValuesKcal(vs[..2]) + PhotosKcal(vs[2].GetOr([]));
    assert PhotoValuesKcal(vs[..2]) == PhotoValuesKcal(vs[..1]) + PhotosKcal(vs[1].GetOr([]));
  }

  /** Replacing one slot's photos changes the photo total by the difference of that slot. */
  lemma PhotosSetSlot(s: Slots<Photo>, k: MealKey, v: seq<Photo>)
    ensures AllPhotosKcal(Some(s.Set(k, Some(v))))
      == AllPhotosKcal(Some(s)) - PhotosKcal(s.Get(k).GetOr([])) + PhotosKcal(v)
  {
    PhotosByKey(s);
    PhotosByKey(s.Set(k, Some(v)));
  }

  /**
   * With `meals` present, appending a photo raises the total by exactly what the photo is
   * worth, negative or not.
   */
  lemma AddPhotoRaisesTotal(meals: Option<Slots<string>>, mp: Option<Slots<Photo>>, k: MealKey, p: Photo)
    requires meals.Some?
    ensures TotalWithPhotos(meals, Some(AddPhoto(mp, k, p))) == TotalWithPhotos(meals, mp) + PhotoKcal(p)
  {
    var s := mp.GetOr(NoSlots());
    var before := s.Get(k).GetOr([]);
    PhotosSetSlot(s, k, before + [p]);
    assert (before + [p])[..|before|] == before;
    if mp.None? {
      PhotosByKey(s);
    }
  }

  /**
   * Removing by id the photo just added, when no other photo of that slot carries its id,
   * brings the total back: removal lowers it by what the photo is worth.
   */
  lemma RemovePhotoLowersTotal(meals: Option<Slots<string>>, mp: Option<Slots<Photo>>, k: MealKey, p: Photo)
    requires meals.Some?
    requires var ps := mp.GetOr(NoSlots()).Get(k).GetOr([]); forall i :: 0 <= i < |ps| ==> ps[i].id != p.id
    ensures TotalWithPhotos(meals, RemovePhoto(Some(AddPhoto(mp, k, p)), k, p.id))
      == TotalWithPhotos(meals, Some(AddPhoto(mp, k, p))) - PhotoKcal(p)
  {
    var s := mp.GetOr(NoSlots());
    var before := s.Get(k).GetOr([]);
    var added := AddPhoto(mp, k, p);
    RemoveAppended(before, p);
    assert added.Set(k, Some(before)).Get(k) == Some(before);
    PhotosSetSlot(added, k, before);
    AddPhotoRaisesTotal(meals, mp, k, p);
    PhotosKcalAppend(before, [p]);
    assert [p][..0] == [];
  }

  /** Without `meals` the total is 0, whatever photos there are. */
  lemma NoMealsNoTotal(mp: Option<Slots<Photo>>)
    ensures TotalWithPhotos(None, mp) == 0
  {
  }

  /** Without photos the total with photos is the meals' total. */
  lemma NoPhotosIsMealsTotal(meals: Option<Slots<string>>)
    ensures TotalWithPhotos(meals, None) == MealsKcal(meals)
  {
  }

  /**
   * The virtual `calculatedCalories`: for every list in `Object.values(meals)` that is an array,
   * the first annotation of every entry. It reads `meals` only, never `totalCalories` or
   * photos.
   */
  method CalculatedCalories(meals: Option<Slots<string>>) returns (total: nat)
    ensures total == MealsKcal(meals)
  {
    total := 0;
    if meals.Some? {
      var values := meals.value.Values();
      var i := 0;
      while i < |values|
        invariant 0 <= i <= |values|
        invariant total == ValuesKcal(values[..i])
      {
        if values[i].Some? {
          var items := values[i].value;
          var j := 0;
          while j < |items|
            invariant 0 <= j <= |items|
            invariant total == ValuesKcal(values[..i]) + EntriesKcal(items[..j])
          {
            assert items[..j + 1][..j] == items[..j];
            total := total + ParseKcal(items[j]);
            j := j + 1;
          }
          assert items[..j] == items;
        }
        assert values[..i + 1][..i] == values[..i];
        i := i + 1;
      }
      assert values[..i] == values;
    }
  }
}
