/**
 * Days ordered by id, newest first. Ids are `YYYY-MM-DD` strings, so comparing them as strings
 * (`b.id.localeCompare(a.id)` on the client, `sort({ id: -1 })` in the database) orders days by
 * date. Both comparisons are modelled as the ordinal order `Below`.
 */
module DayOrder {
  import opened Text
  import opened DaySchema

  /** `a` sorts no later than `b` in descending order. */
  predicate NotAfter(a: Day, b: Day) {
    !Below(a.id, b.id)
  }

  /** Sorted by id, descending (equal ids allowed). */
  predicate SortedDesc(ds: seq<Day>) {
    forall i, j :: 0 <= i < j < |ds| ==> NotAfter(ds[i], ds[j])
  }

  /** Sorted by id, strictly descending. */
  predicate StrictlyDesc(ds: seq<Day>) {
    forall i, j :: 0 <= i < j < |ds| ==> Below(ds[j].id, ds[i].id)
  }

  /** The descending order is transitive. */
  lemma NotAfterTransitive(a: string, b: string, c: string)
    requires !Below(a, b) && !Below(b, c)
    ensures !Below(a, c)
  {
    if Below(a, c) {
      if a == b {
      } else if b == c {
      } else {
        BelowTotal(a, b);
        BelowTotal(b, c);
        BelowTransitive(b, a, c);
        BelowAsymmetric(b, c);
      }
    }
  }

  /**
   * `d` inserted into a sorted list after every day whose id is not below its own, which is
   * where a stable sort puts a day appended at the end.
   */
  function InsertDesc(xs: seq<Day>, d: Day): (r: seq<Day>)
    requires SortedDesc(xs)
    ensures SortedDesc(r)
    ensures multiset(r) == multiset(xs) + multiset{d}
    ensures |r| == |xs| + 1
    decreases |xs|
  {
    if xs == [] then [d]
    else if Below(xs[0].id, d.id) then
      InsertInFront(xs, d);
      [d] + xs
    else
      var tail := InsertDesc(xs[1..], d);
      InsertBehindHead(xs, d, tail);
      [xs[0]] + tail
  }

  /** A day whose id is above the head's goes in front, and the list stays sorted. */
  lemma InsertInFront(xs: seq<Day>, d: Day)
    requires SortedDesc(xs) && xs != [] && Below(xs[0].id, d.id)
    ensures SortedDesc([d] + xs)
  {
    forall j | 0 <= j < |xs|
      ensures NotAfter(d, xs[j])
    {
      BelowAsymmetric(xs[0].id, d.id);
      if j > 0 {
        NotAfterTransitive(d.id, xs[0].id, xs[j].id);
      }
    }
    assert forall i, j :: 0 <= i < j < |[d] + xs| ==> NotAfter(([d] + xs)[i], ([d] + xs)[j]);
  }

  /** A day inserted into the tail behind a head that does not sort below it keeps the order. */
  lemma InsertBehindHead(xs: seq<Day>, d: Day, tail: seq<Day>)
    requires SortedDesc(xs) && xs != [] && !Below(xs[0].id, d.id)
    requires SortedDesc(tail) && multiset(tail) == multiset(xs[1..]) + multiset{d}
    ensures SortedDesc([xs[0]] + tail)
    ensures multiset([xs[0]] + tail) == multiset(xs) + multiset{d}
  {
    HeadAboveTail(xs, d, tail);
    var r := [xs[0]] + tail;
    assert forall i, j :: 0 < i < j < |r| ==> r[i] == tail[i - 1] && r[j] == tail[j - 1];
    HeadTailMultiset(xs);
  }

  /** The head of a sorted list sorts no later than anything inserted behind it. */
  lemma HeadAboveTail(xs: seq<Day>, d: Day, tail: seq<Day>)
    requires SortedDesc(xs) && xs != [] && !Below(xs[0].id, d.id)
    requires multiset(tail) == multiset(xs[1..]) + multiset{d}
    ensures forall j :: 0 <= j < |tail| ==> NotAfter(xs[0], tail[j])
  {
    forall j | 0 <= j < |tail|
      ensures NotAfter(xs[0], tail[j])
    {
      assert tail[j] in multiset(tail);
      if tail[j] != d {
        assert tail[j] in multiset(xs[1..]);
        var k :| 0 <= k < |xs[1..]| && xs[1..][k] == tail[j];
        assert xs[k + 1] == tail[j];
      }
    }
  }

  /** A list's multiset is its head's plus its tail's. */
  lemma HeadTailMultiset<T>(xs: seq<T>)
    requires xs != []
    ensures multiset(xs) == multiset{xs[0]} + multiset(xs[1..])
  {
    assert xs == [xs[0]] + xs[1..];
  }

  /** Days with pairwise different ids that are sorted descending are strictly descending. */
  lemma SortedDistinctIsStrict(ds: seq<Day>)
    requires SortedDesc(ds)
    requires forall i, j :: 0 <= i < j < |ds| ==> ds[i].id != ds[j].id
    ensures StrictlyDesc(ds)
  {
    forall i, j | 0 <= i < j < |ds|
      ensures Below(ds[j].id, ds[i].id)
    {
      BelowTotal(ds[i].id, ds[j].id);
    }
  }

  /**
   * `sort((a, b) => b.id.localeCompare(a.id))`: the days sorted by id, newest first, every
   * day kept. Built by inserting each day after the ones already placed that do not sort
   * below it, which keeps days with equal ids in their order as the stable sort does.
   */
  function SortDesc(xs: seq<Day>): (r: seq<Day>)
    ensures SortedDesc(r)
    ensures multiset(r) == multiset(xs) && |r| == |xs|
    decreases |xs|
  {
    if xs == [] then []
    else
      var front := xs[..|xs| - 1];
      assert xs == front + [xs[|xs| - 1]];
      InsertDesc(SortDesc(front), xs[|xs| - 1])
  }

  /** Sorting keeps exactly the days it was given. */
  lemma SortDescMembers(xs: seq<Day>, d: Day)
    ensures d in SortDesc(xs) <==> d in xs
  {
    assert d in SortDesc(xs) <==> d in multiset(SortDesc(xs));
    assert d in xs <==> d in multiset(xs);
  }

  /** Inserting a day whose id no listed day has keeps a strictly descending list strict. */
  lemma {:induction false} InsertDescStrict(xs: seq<Day>, d: Day)
    requires SortedDesc(xs) && StrictlyDesc(xs)
    requires forall i :: 0 <= i < |xs| ==> xs[i].id != d.id
    ensures StrictlyDesc(InsertDesc(xs, d))
    decreases |xs|
  {
    if xs == [] {
    } else if Below(xs[0].id, d.id) {
      StrictInFront(xs, d);
    } else {
      assert SortedDesc(xs[1..]) && StrictlyDesc(xs[1..]);
      InsertDescStrict(xs[1..], d);
      StrictBehindHead(xs, d, InsertDesc(xs[1..], d));
    }
  }

  /** Inserting a day with a new id keeps the list strictly descending and adds just that day. */
  lemma InsertNewId(xs: seq<Day>, d: Day)
    requires SortedDesc(xs) && StrictlyDesc(xs)
    requires forall i :: 0 <= i < |xs| ==> xs[i].id != d.id
    ensures SortedDesc(InsertDesc(xs, d)) && StrictlyDesc(InsertDesc(xs, d))
    ensures forall x :: x in InsertDesc(xs, d) <==> x in xs || x == d
  {
    InsertDescStrict(xs, d);
    var r := InsertDesc(xs, d);
    assert forall x :: x in r <==> x in multiset(r);
    assert forall x :: x in xs <==> x in multiset(xs);
  }

  /** A day whose id is above the head's, put in front, keeps the list strictly descending. */
  lemma StrictInFront(xs: seq<Day>, d: Day)
    requires StrictlyDesc(xs) && xs != [] && Below(xs[0].id, d.id)
    ensures StrictlyDesc([d] + xs)
  {
    var r := [d] + xs;
    forall i, j | 0 <= i < j < |r|
      ensures Below(r[j].id, r[i].id)
    {
      if i == 0 && j > 1 {
        BelowTransitive(xs[j - 1].id, xs[0].id, d.id);
      }
    }
  }

  /** A head strictly above every day inserted behind it keeps the list strictly descending. */
  lemma StrictBehindHead(xs: seq<Day>, d: Day, tail: seq<Day>)
    requires StrictlyDesc(xs) && xs != [] && !Below(xs[0].id, d.id) && xs[0].id != d.id
    requires StrictlyDesc(tail) && multiset(tail) == multiset(xs[1..]) + multiset{d}
    ensures StrictlyDesc([xs[0]] + tail)
  {
    BelowTotal(xs[0].id, d.id);
    forall j | 0 <= j < |tail|
      ensures Below(tail[j].id, xs[0].id)
    {
      assert tail[j] in multiset(tail);
      if tail[j] != d {
        assert tail[j] in multiset(xs[1..]);
        var k :| 0 <= k < |xs[1..]| && xs[1..][k] == tail[j];
        assert xs[k + 1] == tail[j];
      }
    }
    var r := [xs[0]] + tail;
    assert forall i, j :: 0 < i < j < |r| ==> r[i] == tail[i - 1] && r[j] == tail[j - 1];
  }

  /** Some day of `ds` has the id `id`. */
  predicate HasId(ds: seq<Day>, id: string) {
    exists d :: d in ds && d.id == id
  }

  /** `findIndex((d) => d.id === id)`: the first index with that id, -1 when there is none. */
  function FirstWithId(ds: seq<Day>, id: string): (r: int)
    ensures -1 <= r < |ds|
    ensures r >= 0 ==> ds[r].id == id && forall k :: 0 <= k < r ==> ds[k].id != id
    ensures r < 0 <==> !HasId(ds, id)
    decreases |ds|
  {
    if ds == [] then -1
    else if ds[0].id == id then 0
    else
      var r := FirstWithId(ds[1..], id);
      assert forall d :: d in ds[1..] ==> d in ds;
      assert forall d :: d in ds && d != ds[0] ==> d in ds[1..];
      if r < 0 then -1 else r + 1
  }
}
