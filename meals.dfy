/** The five named meal slots of a day and an object holding one list per slot. */
module Meals {
  import opened Wrappers

  /** Breakfast, first snack, lunch, second snack, dinner. */
  datatype MealKey = Sabah | AraOgun1 | Oglen | AraOgun2 | Aksam

  /** The property name of a slot, as it appears in `meals` and `mealPhotos`. */
  function KeyName(k: MealKey): string {
    match k
    case Sabah => "sabah"
    case AraOgun1 => "araOgun1"
    case Oglen => "oglen"
    case AraOgun2 => "araOgun2"
    case Aksam => "aksam"
  }

  /** The whitelist `["sabah", "araOgun1", "oglen", "araOgun2", "aksam"].includes(name)`. */
  function ParseMealKey(name: string): (r: Option<MealKey>)
    ensures r.Some? <==> name in ["sabah", "araOgun1", "oglen", "araOgun2", "aksam"]
    ensures r.Some? ==> KeyName(r.value) == name
  {
    if name == "sabah" then Some(Sabah)
    else if name == "araOgun1" then Some(AraOgun1)
    else if name == "oglen" then Some(Oglen)
    else if name == "araOgun2" then Some(AraOgun2)
    else if name == "aksam" then Some(Aksam)
    else None
  }

  /** Every slot name is accepted by the whitelist, and names the slot it came from. */
  lemma ParseKeyName(k: MealKey)
    ensures ParseMealKey(KeyName(k)) == Some(k)
  {
  }

  /** An object with the five slot properties, each a list or missing. */
  datatype Slots<T> = Slots(
    sabah: Option<seq<T>>,
    araOgun1: Option<seq<T>>,
    oglen: Option<seq<T>>,
    araOgun2: Option<seq<T>>,
    aksam: Option<seq<T>>)
  {
    function Get(k: MealKey): Option<seq<T>> {
      match k
      case Sabah => sabah
      case AraOgun1 => araOgun1
      case Oglen => oglen
      case AraOgun2 => araOgun2
      case Aksam => aksam
    }

    /** `{ ...this, [k]: v }` */
    function Set(k: MealKey, v: Option<seq<T>>): (r: Slots<T>)
      ensures r.Get(k) == v
      ensures forall k' :: k' != k ==> r.Get(k') == Get(k')
    {
      match k
      case Sabah => this.(sabah := v)
      case AraOgun1 => this.(araOgun1 := v)
      case Oglen => this.(oglen := v)
      case AraOgun2 => this.(araOgun2 := v)
      case Aksam => this.(aksam := v)
    }

    /** `Object.values(this)`, in declaration order. */
    function Values(): seq<Option<seq<T>>> {
      [sabah, araOgun1, oglen, araOgun2, aksam]
    }
  }

  /** `{}`: no slot present. */
  function NoSlots<T>(): Slots<T> {
    Slots(None, None, None, None, None)
  }

  /** Five empty lists, as in `emptyDay`. */
  function EmptySlots<T>(): Slots<T> {
    Slots(Some([]), Some([]), Some([]), Some([]), Some([]))
  }

  /**
   * A photo attached to a meal slot. `calories` is what `parseInt(photo.calories)` yields on
   * the client, None when that is not a number; `timestamp` stands for the server's clock.
   */
  datatype Photo = Photo(id: string, url: Option<string>, calories: Option<int>, timestamp: int)

  /**
   * `mealPhotos[k].push(p)` after `if (!mealPhotos) mealPhotos = {}` and
   * `if (!mealPhotos[k]) mealPhotos[k] = []`.
   */
  function AddPhoto(mp: Option<Slots<Photo>>, k: MealKey, p: Photo): (r: Slots<Photo>)
    ensures r.Get(k) == Some(mp.GetOr(NoSlots()).Get(k).GetOr([]) + [p])
    ensures forall k' :: k' != k ==> r.Get(k') == mp.GetOr(NoSlots()).Get(k')
  {
    var slots := mp.GetOr(NoSlots());
    slots.Set(k, Some(slots.Get(k).GetOr([]) + [p]))
  }

  /** `ps.filter((photo) => photo.id !== id)`. */
  function WithoutId(ps: seq<Photo>, id: string): (r: seq<Photo>)
    ensures |r| <= |ps|
    ensures forall p :: p in r <==> p in ps && p.id != id
    decreases |ps|
  {
    if ps == [] then []
    else
      var front := WithoutId(ps[..|ps| - 1], id);
      var last := ps[|ps| - 1];
      assert ps == ps[..|ps| - 1] + [last];
      if last.id == id then front else front + [last]
  }

  /** One step of the filter: the last photo is kept exactly when its id differs. */
  lemma WithoutIdLast(ps: seq<Photo>, id: string)
    requires ps != []
    ensures WithoutId(ps, id)
      == WithoutId(ps[..|ps| - 1], id) + (if ps[|ps| - 1].id == id then [] else [ps[|ps| - 1]])
  {
  }

  /** The filter keeps every photo with another id as many times as it occurs, and none with the id. */
  lemma {:induction false} WithoutIdCounts(ps: seq<Photo>, id: string)
    ensures forall p :: multiset(WithoutId(ps, id))[p] == if p.id != id then multiset(ps)[p] else 0
    decreases |ps|
  {
    if ps != [] {
      var front, last := ps[..|ps| - 1], ps[|ps| - 1];
      WithoutIdCounts(front, id);
      WithoutIdLast(ps, id);
      assert ps == front + [last];
    }
  }

  /** The filter keeps order: filtering a concatenation filters each part in place. */
  lemma {:induction false} WithoutIdAppend(a: seq<Photo>, b: seq<Photo>, id: string)
    ensures WithoutId(a + b, id) == WithoutId(a, id) + WithoutId(b, id)
    decreases |b|
  {
    if b == [] {
      assert a + b == a;
    } else {
      var b', last := b[..|b| - 1], b[|b| - 1];
      var ab := a + b;
      assert ab[..|ab| - 1] == a + b' && ab[|ab| - 1] == last;
      WithoutIdAppend(a, b', id);
      WithoutIdLast(ab, id);
      WithoutIdLast(b, id);
    }
  }

  /** Filtering out an id no photo carries leaves the list as it was. */
  lemma {:induction false} WithoutAbsentId(ps: seq<Photo>, id: string)
    requires forall i :: 0 <= i < |ps| ==> ps[i].id != id
    ensures WithoutId(ps, id) == ps
    decreases |ps|
  {
    if ps != [] {
      WithoutAbsentId(ps[..|ps| - 1], id);
      WithoutIdLast(ps, id);
      assert ps == ps[..|ps| - 1] + [ps[|ps| - 1]];
    }
  }

  /** Filtering out the id of the photo just appended undoes the append. */
  lemma RemoveAppended(ps: seq<Photo>, p: Photo)
    requires forall i :: 0 <= i < |ps| ==> ps[i].id != p.id
    ensures WithoutId(ps + [p], p.id) == ps
  {
    assert (ps + [p])[..|ps|] == ps;
    WithoutAbsentId(ps, p.id);
  }

  /**
   * `if (mealPhotos && mealPhotos[k]) mealPhotos[k] = mealPhotos[k].filter(...)`: only slot `k`
   * changes, and nothing changes when the slot or the object is missing.
   */
  function RemovePhoto(mp: Option<Slots<Photo>>, k: MealKey, id: string): (r: Option<Slots<Photo>>)
    ensures mp.None? ==> r.None?
    ensures mp.Some? ==> r.Some? && forall k' :: k' != k ==> r.value.Get(k') == mp.value.Get(k')
    ensures mp.Some? ==> (r.value.Get(k).Some? <==> mp.value.Get(k).Some?)
    ensures mp.Some? && mp.value.Get(k).Some? ==>
      forall p :: p in r.value.Get(k).value <==> p in mp.value.Get(k).value && p.id != id
    ensures mp.Some? && mp.value.Get(k).Some? ==>
      forall p :: multiset(r.value.Get(k).value)[p] == if p.id != id then multiset(mp.value.Get(k).value)[p] else 0
  {
    if mp.Some? && mp.value.Get(k).Some? then
      WithoutIdCounts(mp.value.Get(k).value, id);
      Some(mp.value.Set(k, Some(WithoutId(mp.value.Get(k).value, id))))
    else mp
  }
}
