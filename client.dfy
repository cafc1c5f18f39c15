/**
 * The client's data layer: the demo store (days kept in the browser's storage as one array,
 * used when no server address is configured), the `upsertDay` composition over get, create and
 * update, and the module-level authentication token with the headers derived from it.
 *
 * The two client copies of this layer (`api.js` and `services/api.js`) behave the same on
 * everything modelled here and are modelled once.
 */
module Client {
  import opened Wrappers
  import opened DaySchema
  import opened DayOrder

  /** The owner written into every day the demo store saves. */
  const DemoUser: string := "demo-user"

  /** `{ ...day, userId: "demo-user" }`. */
  function Stamped(day: Day): (r: Day)
    ensures r.userId == Some(DemoUser) && r.id == day.id
    ensures r.(userId := day.userId) == day
  {
    day.(userId := Some(DemoUser))
  }

  /** `days.find((day) => day.id === id) || null`: the first day with that id, if any. */
  function Find(days: seq<Day>, id: string): (r: Option<Day>)
    ensures r.Some? <==> HasId(days, id)
    ensures r.Some? ==> r.value == days[FirstWithId(days, id)] && r.value.id == id
    decreases |days|
  {
    if days == [] then None
    else if days[0].id == id then Some(days[0])
    else
      assert FirstWithId(days, id) == (if HasId(days[1..], id) then FirstWithId(days[1..], id) + 1 else -1);
      Find(days[1..], id)
  }

  /** How many stored days carry the id `id`. */
  function CountId(days: seq<Day>, id: string): nat
    decreases |days|
  {
    if days == [] then 0
    else CountId(days[..|days| - 1], id) + (if days[|days| - 1].id == id then 1 else 0)
  }

  /** Demo `createDay`: the stamped day is pushed, with no check for an existing id. */
  function Created(days: seq<Day>, day: Day): (r: seq<Day>)
    ensures |r| == |days| + 1 && r[..|days|] == days && r[|days|] == Stamped(day)
  {
    days + [Stamped(day)]
  }

  /**
   * Demo `updateDay(id, day)`: the new store and the value returned. The first day with id `id`
   * is replaced by the stamped day, which is returned; with no such day the store is unchanged
   * and the input day is returned as it came.
   */
  function Updated(days: seq<Day>, id: string, day: Day): (r: (seq<Day>, Day))
    ensures !HasId(days, id) ==> r == (days, day)
    ensures HasId(days, id) ==>
      var i := FirstWithId(days, id);
      |r.0| == |days| && r.0[i] == Stamped(day) && r.1 == Stamped(day)
      && forall k :: 0 <= k < |days| && k != i ==> r.0[k] == days[k]
  {
    var i := FirstWithId(days, id);
    if i < 0 then (days, day) else (days[i := Stamped(day)], Stamped(day))
  }

  /**
   * `upsertDay(day)` against the demo store, where the lookup cannot fail: update when a day
   * with the same id is stored, create otherwise.
   */
  function Upserted(days: seq<Day>, day: Day): (r: seq<Day>)
    ensures HasId(days, day.id) ==> r == Updated(days, day.id, day).0
    ensures !HasId(days, day.id) ==> r == Created(days, day)
  {
    if HasId(days, day.id) then Updated(days, day.id, day).0 else Created(days, day)
  }

  /** Upserting each day of `batch` in turn. */
  function UpsertAll(days: seq<Day>, batch: seq<Day>): seq<Day>
    decreases |batch|
  {
    if batch == [] then days else UpsertAll(Upserted(days, batch[0]), batch[1..])
  }

  lemma {:induction false} CountIdPositive(days: seq<Day>, id: string)
    ensures CountId(days, id) > 0 <==> HasId(days, id)
    decreases |days|
  {
    if days != [] {
      var front := days[..|days| - 1];
      CountIdPositive(front, id);
      assert forall d :: d in front ==> d in days;
      assert forall d :: d in days ==> d in front || d == days[|days| - 1];
    }
  }

  lemma CountIdAppend(days: seq<Day>, d: Day, id: string)
    ensures CountId(days + [d], id) == CountId(days, id) + (if d.id == id then 1 else 0)
  {
    assert (days + [d])[..|days|] == days;
  }

  /** Replacing a day by one with the same id leaves every id's count as it was. */
  lemma {:induction false} CountIdReplace(days: seq<Day>, i: int, d: Day, id: string)
    requires 0 <= i < |days| && days[i].id == d.id
    ensures CountId(days[i := d], id) == CountId(days, id)
    decreases |days|
  {
    var n := |days| - 1;
    if i == n {
      assert days[i := d][..n] == days[..n];
    } else {
      assert days[i := d][..n] == days[..n][i := d];
      CountIdReplace(days[..n], i, d, id);
    }
  }

  /** Demo `createDay` of an id that is already stored stores it twice. */
  lemma CreateDuplicates(days: seq<Day>, day: Day)
    ensures CountId(Created(days, day), day.id) == CountId(days, day.id) + 1
  {
    CountIdAppend(days, Stamped(day), day.id);
  }

  /**
   * After an upsert the id is stored at least once, and no more often than before when it was
   * already there; other ids keep their counts.
   */
  lemma UpsertCount(days: seq<Day>, day: Day, id: string)
    ensures id == day.id && CountId(days, id) == 0 ==> CountId(Upserted(days, day), id) == 1
    ensures id == day.id && CountId(days, id) > 0 ==> CountId(Upserted(days, day), id) == CountId(days, id)
    ensures id != day.id ==> CountId(Upserted(days, day), id) == CountId(days, id)
  {
    CountIdPositive(days, day.id);
    if HasId(days, day.id) {
      CountIdReplace(days, FirstWithId(days, day.id), Stamped(day), id);
    } else {
      CountIdAppend(days, Stamped(day), id);
    }
  }

  /** Repeated upserts never store an id twice in a store that held each id at most once. */
  lemma {:induction false} UpsertAllKeepsIdsUnique(days: seq<Day>, batch: seq<Day>, id: string)
    requires forall x :: CountId(days, x) <= 1
    ensures CountId(UpsertAll(days, batch), id) <= 1
    decreases |batch|
  {
    if batch != [] {
      var next := Upserted(days, batch[0]);
      forall x
        ensures CountId(next, x) <= 1
      {
        UpsertCount(days, batch[0], x);
      }
      UpsertAllKeepsIdsUnique(next, batch[1..], id);
    }
  }

  /** After an upsert, `getDay` of the id reads back the stamped day. */
  lemma UpsertThenFind(days: seq<Day>, day: Day)
    ensures Find(Upserted(days, day), day.id) == Some(Stamped(day))
  {
    var r := Upserted(days, day);
    if HasId(days, day.id) {
      var i := FirstWithId(days, day.id);
      assert r[i] == Stamped(day);
      assert HasId(r, day.id) by { assert r[i] in r; }
      var j := FirstWithId(r, day.id);
      assert forall k :: 0 <= k < i ==> r[k] == days[k];
      assert j == i;
    } else {
      var n := |days|;
      assert r[n] == Stamped(day);
      assert HasId(r, day.id) by { assert r[n] in r; }
      var j := FirstWithId(r, day.id);
      assert forall k :: 0 <= k < n ==> r[k] == days[k] && days[k] in days;
      assert j == n;
    }
  }

  /** The days stored in the browser by the demo mode, one array under one storage key. */
  class DemoStore {
    var days: seq<Day>

    /** Nothing stored yet reads as `[]`. */
    constructor()
      ensures days == []
    {
      days := [];
    }

    /** Demo `getDay(id)`. */
    method GetDay(id: string) returns (r: Option<Day>)
      ensures r == Find(days, id)
    {
      var i := 0;
      while i < |days| && days[i].id != id
        invariant 0 <= i <= |days|
        invariant forall k :: 0 <= k < i ==> days[k].id != id
      {
        i := i + 1;
      }
      if i < |days| {
        assert HasId(days, id) by { assert days[i] in days; }
        var f := FirstWithId(days, id);
        assert f == i;
        r := Some(days[i]);
      } else {
        assert !HasId(days, id);
        r := None;
      }
    }

    /** Demo `createDay(day)`. */
    method CreateDay(day: Day) returns (r: Day)
      modifies this
      ensures days == Created(old(days), day) && r == Stamped(day)
    {
      var newDay := day.(userId := Some(DemoUser));
      days := days + [newDay];
      r := newDay;
    }

    /** Demo `updateDay(id, day)`. */
    method UpdateDay(id: string, day: Day) returns (r: Day)
      modifies this
      ensures (days, r) == Updated(old(days), id, day)
    {
      var index := 0;
      while index < |days| && days[index].id != id
        invariant 0 <= index <= |days|
        invariant forall k :: 0 <= k < index ==> days[k].id != id
      {
        index := index + 1;
      }
      if index < |days| {
        assert HasId(days, id) by { assert days[index] in days; }
        var f := FirstWithId(days, id);
        assert f == index;
        days := days[index := day.(userId := Some(DemoUser))];
        r := days[index];
      } else {
        assert !HasId(days, id);
        r := day;
      }
    }

    /** `upsertDay(day)` in demo mode: it always answers with the stored, stamped day. */
    method UpsertDay(day: Day) returns (r: Day)
      modifies this
      ensures days == Upserted(old(days), day) && r == Stamped(day)
    {
      var existing := GetDay(day.id);
      if existing.None? {
        r := CreateDay(day);
      } else {
        r := UpdateDay(day.id, day);
      }
    }
  }

  /** What `getDay` settles to when a server answers: a day, `null`, or a thrown error. */
  datatype Lookup = Found(day: Day) | Missing | Threw

  /** `w` occurs in `s` starting at index `i`. */
  predicate OccursAt(s: string, w: string, i: int) {
    0 <= i <= |s| - |w| && s[i..i + |w|] == w
  }

  /** `s` contains `w` as a substring (`String.prototype.includes`). */
  predicate Includes(s: string, w: string) {
    exists i :: 0 <= i <= |s| - |w| && OccursAt(s, w, i)
  }

  /**
   * Server-mode `getDay`: 404 is `null`; any other failure throws, unless its message mentions
   * "404"; a success answers with the day in the body.
   */
  function ServerLookup(status: int, body: Day, message: string): (r: Lookup)
    ensures r.Found? <==> 200 <= status <= 299
    ensures r.Found? ==> r.day == body
    ensures status == 404 ==> r == Missing
    ensures r == Threw <==> !(200 <= status <= 299) && status != 404 && !Includes(message, "404")
  {
    if status == 404 then Missing
    else if !(200 <= status <= 299) then (if Includes(message, "404") then Missing else Threw)
    else Found(body)
  }

  /** The request `upsertDay` goes on to make. */
  datatype Call = CreateCall(day: Day) | UpdateCall(id: string, day: Day)

  /**
   * `upsertDay(day)`: update the day under its own id when the lookup found one; create it when
   * the lookup found nothing and also when the lookup threw. (The create or update is returned
   * without being awaited, so its own failure is not caught and does not fall back.)
   */
  function UpsertCall(lookup: Lookup, day: Day): (r: Call)
    ensures r.day == day
    ensures r.UpdateCall? <==> lookup.Found?
    ensures r.UpdateCall? ==> r.id == day.id
  {
    match lookup
    case Found(_) => UpdateCall(day.id, day)
    case Missing => CreateCall(day)
    case Threw => CreateCall(day)
  }

  /** One request header. */
  datatype Header = Header(name: string, value: string)

  /** A token is used only when it is set and not empty (JavaScript truthiness). */
  predicate Truthy(token: Option<string>) {
    token.Some? && token.value != []
  }

  /**
   * `getAuthHeaders()`: a JSON content type, and a Bearer authorization exactly when a token
   * is set.
   */
  function AuthHeaders(token: Option<string>): (r: seq<Header>)
    ensures |r| >= 1 && r[0] == Header("Content-Type", "application/json")
    ensures (exists h :: h in r && h.name == "Authorization") <==> Truthy(token)
    ensures Truthy(token) ==> Header("Authorization", "Bearer " + token.value) in r
  {
    var base := [Header("Content-Type", "application/json")];
    if Truthy(token) then base + [Header("Authorization", "Bearer " + token.value)] else base
  }

  /** The module-level token and its copy in the browser's storage. */
  class AuthClient {
    var token: Option<string>
    var stored: Option<string>

    /** The token starts as whatever the storage held. */
    constructor(saved: Option<string>)
      ensures token == saved && stored == saved
    {
      token := saved;
      stored := saved;
    }

    /** `setAuthToken(token)`: kept as given; stored when truthy, removed from storage otherwise. */
    method SetAuthToken(t: Option<string>)
      modifies this
      ensures token == t
      ensures stored == (if Truthy(t) then t else None)
    {
      token := t;
      if Truthy(t) {
        stored := t;
      } else {
        stored := None;
      }
    }

    /** `getAuthHeaders()` of the current token. */
    method GetAuthHeaders() returns (r: seq<Header>)
      ensures r == AuthHeaders(token)
    {
      r := [Header("Content-Type", "application/json")];
      if token.Some? && token.value != [] {
        r := r + [Header("Authorization", "Bearer " + token.value)];
      }
    }
  }

  /** Demo `changePassword`: always the success message; no stored state is read or written. */
  function DemoChangePassword(oldPassword: string, newPassword: string): (message: string)
    ensures message == "Password changed successfully"
  {
    "Password changed successfully"
  }
}
