/**
 * One meal's column of food entries: composing an entry `"<name> <cal>kcal"` from the two input
 * fields, splitting an entry back into the edit fields, and the editor's list operations.
 */
module FoodColumn {
  import opened Wrappers
  import opened Text
  import opened Kcal
  import opened Calories
  import opened Seqs

  /** The entry for a trimmed name and trimmed calories: `cal ? `${name} ${cal}kcal` : name`. */
  function Entry(n: string, c: string): (r: string)
    ensures |r| >= |n| && r[..|n|] == n
    ensures c == [] ==> r == n
    ensures c != [] ==> |r| == |n| + |c| + 5
  {
    if c == [] then n else n + " " + c + "kcal"
  }

  /**
   * The entry `add`, `autoAdd`, `commitEdit` and `autoCommitEdit` build from the two input
   * fields, both trimmed first; None when the trimmed name is empty (the handler returns without
   * a change).
   */
  function Compose(name: string, cal: string): (r: Option<string>)
    ensures r.None? <==> Trim(name) == []
    ensures r.Some? ==> r.value == Entry(Trim(name), Trim(cal))
  {
    var n := Trim(name);
    if n == [] then None else Some(Entry(n, Trim(cal)))
  }

  /**
   * What `startEdit` puts in the two edit fields for an entry: its display text and its badge
   * digits; an entry without an annotation goes whole into the name with empty calories.
   */
  function Split(item: string): (r: (string, string))
    ensures KcalDigits(item).None? ==> r == (item, "")
    ensures KcalDigits(item).Some? ==> r.1 == KcalDigits(item).value && Trimmed(r.0)
  {
    (DisplayText(item), Badge(item))
  }

  /** The two branches of `startEdit`, as `Split` gives them. */
  lemma SplitBranches(item: string)
    ensures KcalDigits(item).Some? ==> Split(item) == (DisplayText(item), KcalDigits(item).value)
    ensures KcalDigits(item).None? ==> Split(item) == (item, "")
  {
  }

  /**
   * In `n + rest` with `n` trimmed and free of "kcal", where `rest` starts with a space and then
   * a character that is neither white space nor a `k`, no value match starts inside `n`.
   */
  lemma NoMatchInName(n: string, rest: string, j: nat)
    requires n != [] && Trimmed(n) && NoKcal(n)
    requires |rest| >= 2 && rest[0] == ' ' && !IsSpace(rest[1]) && Lower(rest[1]) != 'k'
    requires j < |n|
    ensures !MatchAt(n + rest, j)
  {
    var s := n + rest;
    var m := |n|;
    assert s[m] == ' ' && s[m + 1] == rest[1] && s[m - 1] == n[m - 1];
    if IsDigit(s[j]) {
      DigitsStopAt(s, j, m);
      var d := DigitsEnd(s, j);
      var v := SpacesEnd(s, d);
      if d == m {
        SpacesEndUnique(s, m, m + 1);
      } else {
        SpacesStopAt(s, d, m - 1);
        if v + 4 <= m {
          assert !IsKcalAt(n, v);
          assert s[v..v + 4] == n[v..v + 4];
        } else {
          assert Lower(s[m]) == ' ';
        }
      }
    }
  }

  /** Under the conditions of `NoMatchInName`, no display match starts inside `n` either. */
  lemma NoDisplayMatchInName(n: string, rest: string, p: nat)
    requires n != [] && Trimmed(n) && NoKcal(n)
    requires |rest| >= 2 && rest[0] == ' ' && !IsSpace(rest[1]) && Lower(rest[1]) != 'k'
    requires p < |n|
    ensures !DisplayMatchAt(n + rest, p)
  {
    var s := n + rest;
    var m := |n|;
    assert s[m] == ' ' && s[m - 1] == n[m - 1];
    SpacesStopAt(s, p, m - 1);
    var q := DisplayDigitsAt(s, p);
    if q < m {
      NoMatchInName(n, rest, q);
    }
  }

  /** After any prefix `u`, digits `c` followed by "kcal" are a value match that ends the text. */
  lemma DigitsThenUnit(u: string, c: string, s: string)
    requires c != [] && AllDigits(c)
    requires s == u + c + "kcal"
    ensures DigitsEnd(s, |u|) == |u| + |c|
    ensures MatchAt(s, |u|) && MatchEnd(s, |u|) == |s|
    ensures s[|u|..|u| + |c|] == c
  {
    var e := |u| + |c|;
    KcalAtEnd(u + c, s);
    DigitsBeforeUnit(u, c, s);
    SpacesEndUnique(s, e, e);
    assert IsDigit(s[|u|]);
  }

  /** In `u + c + "kcal"` the digits `c` are a maximal run of digits. */
  lemma DigitsBeforeUnit(u: string, c: string, s: string)
    requires c != [] && AllDigits(c)
    requires s == u + c + "kcal"
    ensures DigitsEnd(s, |u|) == |u| + |c|
    ensures s[|u|..|u| + |c|] == c
  {
    var uc := u + c;
    var e := |uc|;
    KcalAtEnd(uc, s);
    assert forall k :: |u| <= k < e ==> s[k] == uc[k] == c[k - |u|];
    DigitsEndUnique(s, |u|, e);
  }

  /** In `n + sep + c + "kcal"` no value match starts before the digits `c`. */
  lemma NoMatchBeforeValue(n: string, sep: string, c: string, s: string, j: nat)
    requires n != [] && Trimmed(n) && NoKcal(n)
    requires sep == " " || sep == " -"
    requires c != [] && AllDigits(c)
    requires s == n + sep + c + "kcal"
    requires j < |n| + |sep|
    ensures !MatchAt(s, j)
  {
    if j < |n| {
      var rest := sep + c + "kcal";
      assert s == n + rest;
      assert rest[0] == ' ';
      assert rest[1] == '-' || rest[1] == c[0];
      NoMatchInName(n, rest, j);
    } else {
      assert s[j] == sep[j - |n|];
    }
  }

  /** The value pattern finds `c` in `n + sep + c + "kcal"`, and ends the entry. */
  lemma EntryValue(n: string, sep: string, c: string, s: string)
    requires n != [] && Trimmed(n) && NoKcal(n)
    requires sep == " " || sep == " -"
    requires c != [] && AllDigits(c)
    requires s == n + sep + c + "kcal"
    ensures FirstMatch(s, 0) == Some(|n| + |sep|)
    ensures MatchAt(s, |n| + |sep|) && MatchEnd(s, |n| + |sep|) == |s|
    ensures KcalDigits(s) == Some(c)
  {
    var u := n + sep;
    assert |u| == |n| + |sep|;
    assert s == u + c + "kcal";
    DigitsThenUnit(u, c, s);
    forall j | 0 <= j < |u|
      ensures !MatchAt(s, j)
    {
      NoMatchBeforeValue(n, sep, c, s, j);
    }
    FirstMatchIs(s, |u|);
  }

  /** In `n + sep + c + "kcal"` the display pattern matches at the separator. */
  lemma EntryDisplayStart(n: string, sep: string, c: string, s: string)
    requires n != [] && Trimmed(n) && NoKcal(n)
    requires sep == " " || sep == " -"
    requires c != [] && AllDigits(c)
    requires s == n + sep + c + "kcal"
    ensures DisplayDigitsAt(s, |n|) == |n| + |sep| && DisplayMatchAt(s, |n|)
  {
    EntryValue(n, sep, c, s);
    var m := |n|;
    assert s[m] == ' ';
    if sep == " " {
      assert s[m + 1] == c[0] && IsDigit(c[0]);
    } else {
      assert s[m + 1] == '-';
    }
    SpacesEndUnique(s, m, m + 1);
  }

  /** In `n + sep + c + "kcal"` no display match starts inside `n`. */
  lemma NoDisplayMatchBefore(n: string, sep: string, c: string, s: string, p: nat)
    requires n != [] && Trimmed(n) && NoKcal(n)
    requires sep == " " || sep == " -"
    requires c != [] && AllDigits(c)
    requires s == n + sep + c + "kcal"
    requires p < |n|
    ensures !DisplayMatchAt(s, p)
  {
    var rest := sep + c + "kcal";
    assert s == n + rest;
    assert rest[0] == ' ';
    assert rest[1] == '-' || rest[1] == c[0];
    NoDisplayMatchInName(n, rest, p);
  }

  /** In `n + sep + c + "kcal"` the first display match starts right after `n` and ends the text. */
  lemma EntryFirstDisplay(n: string, sep: string, c: string, s: string)
    requires n != [] && Trimmed(n) && NoKcal(n)
    requires sep == " " || sep == " -"
    requires c != [] && AllDigits(c)
    requires s == n + sep + c + "kcal"
    ensures FirstDisplayMatch(s, 0) == Some(|n|)
    ensures MatchEnd(s, DisplayDigitsAt(s, |n|)) == |s|
  {
    EntryValue(n, sep, c, s);
    EntryDisplayStart(n, sep, c, s);
    forall p | 0 <= p < |n|
      ensures !DisplayMatchAt(s, p)
    {
      NoDisplayMatchBefore(n, sep, c, s, p);
    }
    FirstDisplayMatchIs(s, |n|);
  }

  /** The display pattern removes everything after `n` from `n + sep + c + "kcal"`. */
  lemma EntryDisplay(n: string, sep: string, c: string, s: string)
    requires n != [] && Trimmed(n) && NoKcal(n)
    requires sep == " " || sep == " -"
    requires c != [] && AllDigits(c)
    requires s == n + sep + c + "kcal"
    ensures DisplayText(s) == n
  {
    EntryValue(n, sep, c, s);
    EntryFirstDisplay(n, sep, c, s);
    PrefixOfConcat(n, sep, c, "kcal", s);
    DisplayTextEndsAt(s, |n|);
  }

  /**
   * The round trip of the editor: a name without "kcal" and digit-only calories compose to an
   * entry whose badge is those digits, whose display text is the name, whose edit fields
   * are the trimmed inputs again, and which counts for those calories in every total.
   */
  lemma ComposeSplit(name: string, cal: string)
    requires Trim(name) != [] && NoKcal(Trim(name))
    requires Trim(cal) != [] && AllDigits(Trim(cal))
    ensures Compose(name, cal).Some?
    ensures Badge(Compose(name, cal).value) == Trim(cal)
    ensures Split(Compose(name, cal).value) == (Trim(name), Trim(cal))
    ensures ParseKcal(Compose(name, cal).value) == DecimalValue(Trim(cal))
  {
    var n, c := Trim(name), Trim(cal);
    var s := n + " " + c + "kcal";
    assert Compose(name, cal).value == s;
    EntryValue(n, " ", c, s);
    EntryDisplay(n, " ", c, s);
  }

  /** Calories typed as `-` and digits are kept whole by the trim. */
  lemma SignedTrim(ds: string)
    requires ds != [] && AllDigits(ds)
    ensures Trim("-" + ds) == "-" + ds
  {
    var c := "-" + ds;
    assert c[0] == '-' && c[|c| - 1] == ds[|ds| - 1];
    TrimTrimmed(c);
  }

  /** The entry for signed calories has the sign between the space and the digits. */
  lemma SignedEntry(n: string, ds: string)
    ensures Entry(n, "-" + ds) == n + " -" + ds + "kcal"
  {
    assert n + " " + ("-" + ds) + "kcal" == n + " -" + ds + "kcal";
  }

  /**
   * Calories typed with a minus sign lose it: the value pattern reads the digits after the
   * `-`, the display pattern removes the `-` too, so `-5` shows the badge `5` and counts 5.
   */
  lemma MinusSignDropped(name: string, ds: string)
    requires Trim(name) != [] && NoKcal(Trim(name))
    requires ds != [] && AllDigits(ds)
    ensures Compose(name, "-" + ds).Some?
    ensures Split(Compose(name, "-" + ds).value) == (Trim(name), ds)
    ensures ParseKcal(Compose(name, "-" + ds).value) == DecimalValue(ds)
  {
    var n := Trim(name);
    var s := n + " -" + ds + "kcal";
    assert Compose(name, "-" + ds) == Some(s) by {
      SignedTrim(ds);
      SignedEntry(n, ds);
    }
    assert KcalDigits(s) == Some(ds) by {
      EntryValue(n, " -", ds, s);
    }
    assert DisplayText(s) == n by {
      EntryDisplay(n, " -", ds, s);
    }
  }

  /** Without calories, a name without digits composes to itself and splits back whole. */
  lemma ComposeNameOnly(name: string, cal: string)
    requires Trim(name) != [] && NoDigits(Trim(name))
    requires Trim(cal) == []
    ensures Compose(name, cal) == Some(Trim(name))
    ensures Split(Trim(name)) == (Trim(name), "")
    ensures ParseKcal(Trim(name)) == 0
  {
    NoDigitsNoMatch(Trim(name));
  }

  /** The column's state: its entries and the five input fields of the component. */
  datatype Editor = Editor(
    items: seq<string>,
    foodName: string,
    calories: string,
    editText: string,
    editCalories: string,
    editIndex: int)

  /** `editIndex` is -1 (no row in edit) or the index of an entry. */
  predicate EditorValid(e: Editor) {
    -1 <= e.editIndex < |e.items|
  }

  /** `items.filter((_, i) => i !== idx)`: the entry at `idx` removed, the others kept in order. */
  function RemoveAt<T>(xs: seq<T>, idx: int): (r: seq<T>)
    ensures 0 <= idx < |xs| ==> |r| == |xs| - 1
    ensures 0 <= idx < |xs| ==> forall i :: 0 <= i < idx ==> r[i] == xs[i]
    ensures 0 <= idx < |xs| ==> forall i :: idx <= i < |r| ==> r[i] == xs[i + 1]
    ensures !(0 <= idx < |xs|) ==> r == xs
  {
    if 0 <= idx < |xs| then xs[..idx] + xs[idx + 1..] else xs
  }

  /** Removing a row that was just overwritten gives what removing the original row gives. */
  lemma RemoveAtUpdated<T>(xs: seq<T>, i: int, x: T)
    requires 0 <= i < |xs|
    ensures RemoveAt(xs[i := x], i) == RemoveAt(xs, i)
  {
    RemoveUpdated(xs, i, x);
  }

  /** Removing an entry lowers the column's calories by exactly what that entry is worth. */
  lemma RemoveAtKcal(xs: seq<string>, idx: int)
    requires 0 <= idx < |xs|
    ensures EntriesKcal(RemoveAt(xs, idx)) == EntriesKcal(xs) - ParseKcal(xs[idx])
    ensures multiset(RemoveAt(xs, idx)) + multiset{xs[idx]} == multiset(xs)
  {
    var front, back := xs[..idx], xs[idx + 1..];
    SplitAt(xs, idx);
    EntriesKcalAppend(front + [xs[idx]], back);
    EntriesKcalAppend(front, [xs[idx]]);
    EntriesKcalAppend(front, back);
    assert EntriesKcal([xs[idx]]) == ParseKcal(xs[idx]) by {
      assert [xs[idx]][..0] == [];
    }
  }

  /**
   * `add()` (with the two input fields) and `autoAdd(name, cal)`: a non-blank name appends one
   * composed entry after the others and clears both input fields; a blank name changes nothing.
   */
  function AddEntry(e: Editor, name: string, cal: string): (r: Editor)
    ensures Compose(name, cal).None? ==> r == e
    ensures Compose(name, cal).Some? ==>
      && |r.items| == |e.items| + 1
      && r.items[..|e.items|] == e.items
      && r.items[|e.items|] == Compose(name, cal).value
      && r.foodName == "" && r.calories == ""
      && r.(items := e.items, foodName := e.foodName, calories := e.calories) == e
  {
    match Compose(name, cal)
    case None => e
    case Some(entry) => e.(items := e.items + [entry], foodName := "", calories := "")
  }

  /** An added entry raises the column's calories by what it is worth. */
  lemma AddEntryKcal(e: Editor, name: string, cal: string)
    requires Compose(name, cal).Some?
    ensures EntriesKcal(AddEntry(e, name, cal).items)
      == EntriesKcal(e.items) + ParseKcal(Compose(name, cal).value)
  {
    var entry := Compose(name, cal).value;
    EntriesKcalAppend(e.items, [entry]);
    assert [entry][..0] == [];
  }

  /**
   * `del(idx)` as the component has it: the entry is removed, but `editIndex` is left as it
   * was, so after removing an entry before the one in edit it points one entry too far.
   */
  function DelAsWritten(e: Editor, idx: int): (r: Editor)
    ensures r.items == RemoveAt(e.items, idx)
    ensures r.editIndex == e.editIndex
    ensures r.foodName == e.foodName && r.calories == e.calories
    ensures r.editText == e.editText && r.editCalories == e.editCalories
  {
    e.(items := RemoveAt(e.items, idx))
  }

  /**
   * `del(idx)` as it is evidently meant: the entry is removed and the edit row follows its
   * entry: an edit of a later entry moves down one place, an edit of the removed entry is
   * cancelled.
   */
  function Deleted(e: Editor, idx: int): (r: Editor)
    requires EditorValid(e)
    ensures EditorValid(r)
    ensures r.items == RemoveAt(e.items, idx)
    ensures 0 <= idx < |e.items| && e.editIndex >= 0 && idx != e.editIndex ==>
      0 <= r.editIndex && r.items[r.editIndex] == e.items[e.editIndex]
    ensures 0 <= idx < |e.items| && idx == e.editIndex ==> r.editIndex == -1
    ensures e.editIndex == -1 || !(0 <= idx < |e.items|) ==> r.editIndex == e.editIndex
    ensures r.foodName == e.foodName && r.calories == e.calories
  {
    if !(0 <= idx < |e.items|) then e
    else if idx < e.editIndex then
      e.(items := RemoveAt(e.items, idx), editIndex := e.editIndex - 1)
    else if idx == e.editIndex then
      e.(items := RemoveAt(e.items, idx), editIndex := -1, editText := "", editCalories := "")
    else
      e.(items := RemoveAt(e.items, idx))
  }

  /** `startEdit(idx)`: the row in edit is `idx`, its entry split into the two edit fields. */
  function EditStarted(e: Editor, idx: int): (r: Editor)
    requires 0 <= idx < |e.items|
    ensures EditorValid(r) && r.editIndex == idx
    ensures (r.editText, r.editCalories) == Split(e.items[idx])
    ensures r.items == e.items && r.foodName == e.foodName && r.calories == e.calories
  {
    var (text, cal) := Split(e.items[idx]);
    e.(editIndex := idx, editText := text, editCalories := cal)
  }

  /**
   * The entry in edit replaced by the one composed from `name` and `cal`; nothing changes
   * when no row is in edit or the name is blank.
   */
  function ReplaceInEdit(e: Editor, name: string, cal: string): (r: seq<string>)
    requires e.editIndex < |e.items|
    ensures |r| == |e.items|
    ensures forall i :: 0 <= i < |r| && i != e.editIndex ==> r[i] == e.items[i]
    ensures e.editIndex < 0 || Compose(name, cal).None? ==> r == e.items
    ensures e.editIndex >= 0 && Compose(name, cal).Some? ==> r[e.editIndex] == Compose(name, cal).value
  {
    if e.editIndex < 0 then e.items
    else match Compose(name, cal)
      case None => e.items
      case Some(entry) => e.items[e.editIndex := entry]
  }

  /**
   * `commitEdit()`: the entry in edit replaced from the edit fields, and the edit closed;
   * a no-op when no row is in edit or the edited name is blank.
   */
  function Committed(e: Editor): (r: Editor)
    requires EditorValid(e)
    ensures EditorValid(r)
    ensures r.items == ReplaceInEdit(e, e.editText, e.editCalories)
    ensures e.editIndex < 0 || Compose(e.editText, e.editCalories).None? ==> r == e
    ensures e.editIndex >= 0 && Compose(e.editText, e.editCalories).Some? ==>
      r.editIndex == -1 && r.editText == "" && r.editCalories == ""
  {
    if e.editIndex < 0 || Compose(e.editText, e.editCalories).None? then e
    else e.(items := ReplaceInEdit(e, e.editText, e.editCalories), editIndex := -1,
            editText := "", editCalories := "")
  }

  /** The branches of `commitEdit`, each with its whole new state. */
  lemma CommittedCases(e: Editor)
    requires EditorValid(e)
    ensures e.editIndex < 0 || Trim(e.editText) == [] ==> Committed(e) == e
    ensures e.editIndex >= 0 && Trim(e.editText) != [] ==> (Committed(e) ==
      e.(items := e.items[e.editIndex := Entry(Trim(e.editText), Trim(e.editCalories))],
         editIndex := -1, editText := "", editCalories := ""))
  {
  }

  /** The branches of `autoCommitEdit`, each with its whole new state. */
  lemma AutoCommittedCases(e: Editor, name: string, cal: string)
    requires EditorValid(e)
    ensures e.editIndex < 0 || Trim(name) == [] ==> AutoCommitted(e, name, cal) == e
    ensures e.editIndex >= 0 && Trim(name) != [] ==> (AutoCommitted(e, name, cal) ==
      e.(items := e.items[e.editIndex := Entry(Trim(name), Trim(cal))]))
  {
  }

  /** `autoCommitEdit(name, cal)`: as `commitEdit`, but the row stays in edit. */
  function AutoCommitted(e: Editor, name: string, cal: string): (r: Editor)
    requires EditorValid(e)
    ensures EditorValid(r)
    ensures r == e.(items := ReplaceInEdit(e, name, cal))
  {
    e.(items := ReplaceInEdit(e, name, cal))
  }

  /** Replacing the entry in edit changes the calories by the difference of the two entries. */
  lemma ReplaceInEditKcal(e: Editor, name: string, cal: string)
    requires 0 <= e.editIndex < |e.items| && Compose(name, cal).Some?
    ensures EntriesKcal(ReplaceInEdit(e, name, cal))
      == EntriesKcal(e.items) - ParseKcal(e.items[e.editIndex]) + ParseKcal(Compose(name, cal).value)
  {
    var i := e.editIndex;
    var r := ReplaceInEdit(e, name, cal);
    RemoveAtKcal(e.items, i);
    RemoveAtKcal(r, i);
    assert r == e.items[i := Compose(name, cal).value];
    RemoveAtUpdated(e.items, i, Compose(name, cal).value);
  }

  /**
   * Editing an entry and committing it unchanged writes back the same entry, for every entry
   * the editor composes from a name without "kcal" and digit-only calories.
   */
  lemma StartCommitRoundTrip(e: Editor, idx: int, name: string, cal: string)
    requires 0 <= idx < |e.items|
    requires Trim(name) != [] && NoKcal(Trim(name))
    requires Trim(cal) != [] && AllDigits(Trim(cal))
    requires e.items[idx] == Compose(name, cal).value
    ensures Committed(EditStarted(e, idx)).items == e.items
  {
    SplitComposes(name, cal);
    CommitRewrites(EditStarted(e, idx));
  }

  /** The edit fields of a composed entry compose back to that entry. */
  lemma SplitComposes(name: string, cal: string)
    requires Trim(name) != [] && NoKcal(Trim(name))
    requires Trim(cal) != [] && AllDigits(Trim(cal))
    ensures Compose(name, cal).Some?
    ensures var item := Compose(name, cal).value; Compose(Split(item).0, Split(item).1) == Some(item)
  {
    ComposeSplit(name, cal);
    ComposeTrimmed(name, cal);
  }

  /** Committing edit fields that compose to the entry in edit leaves the entries as they were. */
  lemma CommitRewrites(s: Editor)
    requires 0 <= s.editIndex < |s.items|
    requires Compose(s.editText, s.editCalories) == Some(s.items[s.editIndex])
    ensures Committed(s).items == s.items
  {
    UpdateSame(s.items, s.editIndex);
  }

  /** Composing from already trimmed fields gives the same entry. */
  lemma ComposeTrimmed(name: string, cal: string)
    ensures Compose(Trim(name), Trim(cal)) == Compose(name, cal)
  {
    TrimTrimmed(Trim(name));
    TrimTrimmed(Trim(cal));
  }

  /**
   * The stale edit index, as written: with entries `[a, b, c]`, editing `b`, deleting `a` and
   * committing the new name `x` overwrites `c` and leaves `b`.
   */
  lemma StaleEditIndexAsWritten(a: string, b: string, c: string, x: string)
    requires KcalDigits(b).None? && Trim(x) != []
    ensures var e := EditStarted(Editor([a, b, c], "", "", "", "", -1), 1);
      Committed(DelAsWritten(e, 0).(editText := x)).items == [b, Trim(x)]
  {
    var e := EditStarted(Editor([a, b, c], "", "", "", "", -1), 1);
    assert e.editCalories == "";
    assert RemoveAt([a, b, c], 0) == [b, c];
  }

  /** The same steps with the corrected `Deleted` replace `b`, the entry in edit, and keep `c`. */
  lemma StaleEditIndexCorrected(a: string, b: string, c: string, x: string)
    requires KcalDigits(b).None? && Trim(x) != []
    ensures var e := EditStarted(Editor([a, b, c], "", "", "", "", -1), 1);
      Committed(Deleted(e, 0).(editText := x)).items == [Trim(x), c]
  {
    var e := EditStarted(Editor([a, b, c], "", "", "", "", -1), 1);
    assert e.editCalories == "";
    assert RemoveAt([a, b, c], 0) == [b, c];
  }

  /**
   * The component: the entries it shows (updated here directly where the component hands a new
   * list to its parent through `onChange`) and its input state.
   */
  class Column {
    var items: seq<string>
    var foodName: string
    var calories: string
    var editText: string
    var editCalories: string
    var editIndex: int

    function State(): Editor
      reads this
    {
      Editor(items, foodName, calories, editText, editCalories, editIndex)
    }

    ghost predicate Valid()
      reads this
    {
      EditorValid(State())
    }

    /** A column showing `items`, with empty input fields and no row in edit. */
    constructor(items: seq<string>)
      ensures State() == Editor(items, "", "", "", "", -1) && Valid()
    {
      this.items := items;
      foodName, calories := "", "";
      editText, editCalories := "", "";
      editIndex := -1;
    }

    /** `add()`: the entry composed from the two input fields. */
    method Add()
      requires Valid()
      modifies this
      ensures State() == AddEntry(old(State()), old(foodName), old(calories)) && Valid()
    {
      AutoAdd(foodName, calories);
    }

    /** `autoAdd(name, cal)`, as the add timer calls it. */
    method AutoAdd(name: string, cal: string)
      requires Valid()
      modifies this
      ensures State() == AddEntry(old(State()), name, cal) && Valid()
    {
      var n := Trim(name);
      if n == [] {
        return;
      }
      var entry := Entry(n, Trim(cal));
      assert Compose(name, cal) == Some(entry);
      items := items + [entry];
      foodName := "";
      calories := "";
    }

    /** The state half of `handleFoodNameChange`: the field takes the typed value. */
    method SetFoodName(value: string)
      modifies this
      ensures State() == old(State()).(foodName := value)
    {
      foodName := value;
    }

    /** The state half of `handleCaloriesChange`. */
    method SetCalories(value: string)
      modifies this
      ensures State() == old(State()).(calories := value)
    {
      calories := value;
    }

    /** `del(idx)`, with the edit row kept on its entry. */
    method Del(idx: int)
      requires Valid()
      modifies this
      ensures State() == Deleted(old(State()), idx) && Valid()
    {
      if !(0 <= idx < |items|) {
        return;
      }
      items := items[..idx] + items[idx + 1..];
      if idx < editIndex {
        editIndex := editIndex - 1;
      } else if idx == editIndex {
        editIndex := -1;
        editText := "";
        editCalories := "";
      }
    }

    /** `startEdit(idx)` on a shown row. */
    method StartEdit(idx: int)
      requires 0 <= idx < |items|
      modifies this
      ensures State() == EditStarted(old(State()), idx) && Valid()
    {
      editIndex := idx;
      var item := items[idx];
      var kcalMatch := KcalDigits(item);
      SplitBranches(item);
      if kcalMatch.Some? {
        editText := DisplayText(item);
        editCalories := kcalMatch.value;
      } else {
        editText := item;
        editCalories := "";
      }
    }

    /** The state half of `handleEditNameChange`. */
    method SetEditText(value: string)
      modifies this
      ensures State() == old(State()).(editText := value)
    {
      editText := value;
    }

    /** The state half of `handleEditCaloriesChange`. */
    method SetEditCalories(value: string)
      modifies this
      ensures State() == old(State()).(editCalories := value)
    {
      editCalories := value;
    }

    /** `commitEdit()`: a copy of the list with the entry in edit replaced, then the edit closed. */
    method CommitEdit()
      requires Valid()
      modifies this
      ensures State() == Committed(old(State())) && Valid()
    {
      CommittedCases(State());
      if editIndex < 0 {
        return;
      }
      var name := Trim(editText);
      if name == [] {
        return;
      }
      var next := items;
      next := next[editIndex := Entry(name, Trim(editCalories))];
      items := next;
      editIndex := -1;
      editText := "";
      editCalories := "";
    }

    /** `autoCommitEdit(name, cal)`, as the edit timer calls it: the row stays in edit. */
    method AutoCommitEdit(name: string, cal: string)
      requires Valid()
      modifies this
      ensures State() == AutoCommitted(old(State()), name, cal) && Valid()
    {
      AutoCommittedCases(State(), name, cal);
      if editIndex < 0 {
        return;
      }
      var n := Trim(name);
      if n == [] {
        return;
      }
      var next := items;
      next := next[editIndex := Entry(n, Trim(cal))];
      items := next;
    }
  }
}
