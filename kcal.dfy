/**
 * The calorie annotation of a free-text food entry.
 *
 * Seven places in the application read an entry's calories with the regular expression
 * `/(\d+)\s*kcal/i`: the first match's digits, read as a decimal number, are the entry's
 * calories, and an entry without a match has 0. The food list additionally strips the
 * annotation for display with `/(\s*-?\d+\s*kcal)/i`. Both are defined here once.
 *
 * Leftmost-match semantics, worked out for these two patterns: `\d+` is greedy and only its
 * maximal run can be followed by `\s*kcal` (a shorter run is followed by another digit), and
 * `\s*` is greedy and only its maximal run can be followed by `-`, a digit or `k`. So a match
 * starts at `i` exactly when the maximal digit run from `i`, then the maximal white-space run,
 * is followed by "kcal" in any letter case.
 */
module Kcal {
  import opened Wrappers
  import opened Text

  /** `/(\d+)\s*kcal/i` has a match that starts at index `i`. */
  predicate MatchAt(s: string, i: nat) {
    i < |s| && IsDigit(s[i]) && IsKcalAt(s, SpacesEnd(s, DigitsEnd(s, i)))
  }

  /** The index just past the "kcal" of the match that starts at `i`. */
  function MatchEnd(s: string, i: nat): (e: nat)
    requires MatchAt(s, i)
    ensures DigitsEnd(s, i) < e <= |s|
  {
    SpacesEnd(s, DigitsEnd(s, i)) + 4
  }

  /** The leftmost index at or after `from` where the pattern matches. */
  function FirstMatch(s: string, from: nat): (r: Option<nat>)
    requires from <= |s|
    ensures r.Some? ==> from <= r.value < |s|
    ensures r.Some? ==> MatchAt(s, r.value)
    ensures r.Some? ==> forall j :: from <= j < r.value ==> !MatchAt(s, j)
    ensures r.None? ==> forall j :: from <= j < |s| ==> !MatchAt(s, j)
    decreases |s| - from
  {
    if from == |s| then None
    else if MatchAt(s, from) then Some(from)
    else
      var r := FirstMatch(s, from + 1);
      SearchStep(s, from, r);
      r
  }

  /** A search from `from + 1` is a search from `from` when there is no match at `from`. */
  lemma SearchStep(s: string, from: nat, r: Option<nat>)
    requires from < |s| && !MatchAt(s, from)
    requires r.Some? ==> from + 1 <= r.value < |s|
    requires r.Some? ==> MatchAt(s, r.value)
    requires r.Some? ==> forall j :: from + 1 <= j < r.value ==> !MatchAt(s, j)
    requires r.None? ==> forall j :: from + 1 <= j < |s| ==> !MatchAt(s, j)
    ensures r.Some? ==> forall j :: from <= j < r.value ==> !MatchAt(s, j)
    ensures r.None? ==> forall j :: from <= j < |s| ==> !MatchAt(s, j)
  {
  }

  /** `s.match(/(\d+)\s*kcal/i)?.[1]`: the digits of the first match, if any. */
  function KcalDigits(s: string): (r: Option<string>)
    ensures r.Some? ==> r.value != [] && AllDigits(r.value)
  {
    match FirstMatch(s, 0)
    case None => None
    case Some(i) => Some(s[i..DigitsEnd(s, i)])
  }

  /** The calories an entry contributes: `parseInt(match[1], 10)`, or 0 without a match. */
  function ParseKcal(s: string): nat {
    match KcalDigits(s)
    case None => 0
    case Some(ds) => DecimalValue(ds)
  }

  /** A match that no earlier match precedes is the first match. */
  lemma FirstMatchIs(s: string, i: nat)
    requires MatchAt(s, i)
    requires forall j :: 0 <= j < i ==> !MatchAt(s, j)
    ensures FirstMatch(s, 0) == Some(i)
    ensures KcalDigits(s) == Some(s[i..DigitsEnd(s, i)])
  {
  }

  /** The first match always begins a digit run: it is never preceded by a digit. */
  lemma FirstMatchStartsRun(s: string)
    requires FirstMatch(s, 0).Some?
    ensures var i := FirstMatch(s, 0).value; i == 0 || !IsDigit(s[i - 1])
  {
    var i := FirstMatch(s, 0).value;
    if i > 0 && IsDigit(s[i - 1]) {
      DigitsEndUnique(s, i - 1, DigitsEnd(s, i));
      assert MatchAt(s, i - 1);
      assert false;
    }
  }

  /** `s.search(/(\d+)\s*kcal/i) < 0` and `ParseKcal` agree: a positive value needs a match. */
  lemma PositiveNeedsMatch(s: string)
    requires ParseKcal(s) > 0
    ensures exists i :: MatchAt(s, i)
  {
    var i := FirstMatch(s, 0).value;
    assert MatchAt(s, i);
  }

  /**
   * Only the first annotation counts: text appended after an annotated entry never changes
   * its calories, whatever that text contains.
   */
  lemma {:induction false} AppendKeepsFirstMatch(s: string, t: string)
    requires KcalDigits(s).Some?
    ensures KcalDigits(s + t) == KcalDigits(s)
    ensures ParseKcal(s + t) == ParseKcal(s)
  {
    var u := s + t;
    var i := FirstMatch(s, 0).value;
    var e := DigitsEnd(s, i);
    var w := SpacesEnd(s, e);
    assert w + 4 <= |s|;
    DigitsEndUnique(u, i, e);
    SpacesEndUnique(u, e, w);
    assert IsKcalAt(u, w);
    assert MatchAt(u, i);
    forall j | 0 <= j < i
      ensures !MatchAt(u, j)
    {
      EarlierStaysNoMatch(s, t, i, j);
    }
    FirstMatchIs(u, i);
    assert u[i..e] == s[i..e];
  }

  /** A position before a match of `s` that is no match stays no match when `t` is appended. */
  lemma EarlierStaysNoMatch(s: string, t: string, i: nat, j: nat)
    requires MatchAt(s, i) && j < i && !MatchAt(s, j)
    ensures !MatchAt(s + t, j)
  {
    var u := s + t;
    if IsDigit(s[j]) {
      var e := DigitsEnd(s, i);
      var d := DigitsEnd(s, j);
      if d >= i {
        DigitsEndUnique(s, j, e);
        assert false;
      }
      var v := SpacesEnd(s, d);
      MatchNeedsRoom(s, i);
      DigitsEndUnique(u, j, d);
      SpacesEndUnique(u, d, v);
      assert !IsKcalAt(s, v);
    }
  }

  predicate NoDigits(s: string) {
    forall k :: 0 <= k < |s| ==> !IsDigit(s[k])
  }

  /**
   * An entry of the shape `<text without digits><digits><spaces>kcal<anything>` is worth its
   * digits; `unit` is "kcal" in any letter case.
   */
  lemma AnnotatedValue(p: string, ds: string, gap: string, unit: string, rest: string)
    requires NoDigits(p)
    requires ds != [] && AllDigits(ds) && AllSpaces(gap)
    requires |unit| == 4 && IsKcalAt(unit, 0)
    ensures KcalDigits(p + ds + gap + unit + rest) == Some(ds)
    ensures ParseKcal(p + ds + gap + unit + rest) == DecimalValue(ds)
  {
    var s := p + ds + gap + unit + rest;
    var i, e := |p|, |p| + |ds|;
    assert s[e + |gap|] == unit[0];
    DigitsEndUnique(s, i, e);
    SpacesEndUnique(s, e, e + |gap|);
    assert IsKcalAt(s, e + |gap|);
    forall j | 0 <= j < i
      ensures !MatchAt(s, j)
    {
      assert s[j] == p[j];
    }
    FirstMatchIs(s, i);
    assert s[i..e] == ds;
  }

  /** A unit written before its digits is no annotation: "kcal150" is worth 0. */
  lemma UnitBeforeDigitsIsNoMatch()
    ensures KcalDigits("kcal150") == None && ParseKcal("kcal150") == 0
  {
    var s := "kcal150";
    forall j | 0 <= j < |s|
      ensures !MatchAt(s, j)
    {
      if 4 <= j {
        MatchNeedsRoom(s, j);
      }
    }
  }

  /** A match needs a digit and the four letters of the unit after its start. */
  lemma MatchNeedsRoom(s: string, j: nat)
    ensures MatchAt(s, j) ==> j + 5 <= |s|
  {
    if j < |s| && IsDigit(s[j]) {
      assert DigitsEnd(s, j) == DigitsEnd(s, j + 1);
    }
  }

  /** The display pattern `/(\s*-?\d+\s*kcal)/i` at `p`: where its digits start. */
  function DisplayDigitsAt(s: string, p: nat): (q: nat)
    requires p <= |s|
    ensures p <= q <= |s|
  {
    var q := SpacesEnd(s, p);
    if q < |s| && s[q] == '-' then q + 1 else q
  }

  /** `/(\s*-?\d+\s*kcal)/i` has a match that starts at index `p`. */
  predicate DisplayMatchAt(s: string, p: nat) {
    p <= |s| && MatchAt(s, DisplayDigitsAt(s, p))
  }

  function FirstDisplayMatch(s: string, from: nat): (r: Option<nat>)
    requires from <= |s|
    ensures r.Some? ==> from <= r.value < |s|
    ensures r.Some? ==> DisplayMatchAt(s, r.value)
    ensures r.Some? ==> forall p :: from <= p < r.value ==> !DisplayMatchAt(s, p)
    ensures r.None? ==> forall p :: from <= p < |s| ==> !DisplayMatchAt(s, p)
    decreases |s| - from
  {
    if from == |s| then None
    else if DisplayMatchAt(s, from) then Some(from)
    else
      var r := FirstDisplayMatch(s, from + 1);
      DisplaySearchStep(s, from, r);
      r
  }

  /** A search from `from + 1` is a search from `from` when there is no display match at `from`. */
  lemma DisplaySearchStep(s: string, from: nat, r: Option<nat>)
    requires from < |s| && !DisplayMatchAt(s, from)
    requires r.Some? ==> from + 1 <= r.value < |s| && DisplayMatchAt(s, r.value)
    requires r.Some? ==> forall p :: from + 1 <= p < r.value ==> !DisplayMatchAt(s, p)
    requires r.None? ==> forall p :: from + 1 <= p < |s| ==> !DisplayMatchAt(s, p)
    ensures r.Some? ==> from <= r.value < |s| && DisplayMatchAt(s, r.value)
    ensures r.Some? ==> forall p :: from <= p < r.value ==> !DisplayMatchAt(s, p)
    ensures r.None? ==> forall p :: from <= p < |s| ==> !DisplayMatchAt(s, p)
  {
  }

  /** A display match that no earlier display match precedes is the first one. */
  lemma FirstDisplayMatchIs(s: string, p: nat)
    requires DisplayMatchAt(s, p) && p < |s|
    requires forall q :: 0 <= q < p ==> !DisplayMatchAt(s, q)
    ensures FirstDisplayMatch(s, 0) == Some(p)
  {
  }

  /** An entry without digits has no annotation and is worth 0. */
  lemma NoDigitsNoMatch(s: string)
    requires NoDigits(s)
    ensures KcalDigits(s).None? && ParseKcal(s) == 0
  {
    assert forall j :: 0 <= j < |s| ==> !MatchAt(s, j);
  }

  /** Wherever the value pattern matches, the display pattern matches too. */
  lemma ValueMatchIsDisplayMatch(s: string)
    requires KcalDigits(s).Some?
    ensures FirstDisplayMatch(s, 0).Some?
    ensures FirstDisplayMatch(s, 0).value <= FirstMatch(s, 0).value
  {
    var i := FirstMatch(s, 0).value;
    SpacesEndUnique(s, i, i);
    assert DisplayMatchAt(s, i);
  }

  /**
   * The text shown for an entry and put in the name field when it is edited:
   * `kcalValue ? txt.replace(/(\s*-?\d+\s*kcal)/i, "").trim() : txt`.
   */
  function DisplayText(s: string): (r: string)
    ensures KcalDigits(s).None? ==> r == s
    ensures KcalDigits(s).Some? ==> Trimmed(r) && |r| < |s|
  {
    if KcalDigits(s).None? then s
    else
      ValueMatchIsDisplayMatch(s);
      var p := FirstDisplayMatch(s, 0).value;
      Trim(s[..p] + s[MatchEnd(s, DisplayDigitsAt(s, p))..])
  }

  /** The display text once the first display match is known. */
  lemma DisplayTextAt(s: string, p: nat)
    requires KcalDigits(s).Some? && FirstDisplayMatch(s, 0) == Some(p)
    ensures DisplayText(s) == Trim(s[..p] + s[MatchEnd(s, DisplayDigitsAt(s, p))..])
  {
  }

  /** When the first display match runs to the end, the display text is what precedes it. */
  lemma DisplayTextEndsAt(s: string, p: nat)
    requires KcalDigits(s).Some? && FirstDisplayMatch(s, 0) == Some(p)
    requires MatchEnd(s, DisplayDigitsAt(s, p)) == |s| && Trimmed(s[..p])
    ensures DisplayText(s) == s[..p]
  {
    DisplayTextAt(s, p);
    assert s[..p] + s[|s|..] == s[..p];
    TrimTrimmed(s[..p]);
  }

  /** The calorie badge text: `kcalMatch ? kcalMatch[1] : null`, empty when absent. */
  function Badge(s: string): (r: string)
    ensures r == [] <==> KcalDigits(s).None?
  {
    KcalDigits(s).GetOr([])
  }
}
