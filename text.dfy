/**
 * Character classes and small string functions shared by the calorie rule, the entry editor,
 * the date formatter and the day ordering.
 *
 * JavaScript's `\s` and `String.prototype.trim` also accept non-ASCII spaces; here both are the
 * six ASCII white-space characters. `\d` is ASCII in JavaScript, as here.
 */
module Text {

  /** `\d`: an ASCII decimal digit. */
  predicate IsDigit(c: char) {
    '0' <= c <= '9'
  }

  /** `\s` restricted to ASCII: space, tab, line feed, vertical tab, form feed, carriage return. */
  predicate IsSpace(c: char) {
    c == ' ' || 9 <= c as int <= 13
  }

  /** ASCII lower case; the `i` flag folds exactly these letters for the pattern "kcal". */
  function Lower(c: char): (r: char)
    ensures 'a' <= r <= 'z' ==> ('a' <= c <= 'z' || 'A' <= c <= 'Z')
  {
    if 'A' <= c <= 'Z' then (c as int + 32) as char else c
  }

  /** The four characters at `j` spell "kcal", compared case-insensitively. */
  predicate IsKcalAt(s: string, j: nat) {
    && j + 4 <= |s|
    && Lower(s[j]) == 'k' && Lower(s[j + 1]) == 'c'
    && Lower(s[j + 2]) == 'a' && Lower(s[j + 3]) == 'l'
  }

  /** A text that ends in "kcal" has the unit at its last four characters. */
  lemma KcalAtEnd(p: string, s: string)
    requires s == p + "kcal"
    ensures |s| == |p| + 4
    ensures s[|p|] == 'k' && IsKcalAt(s, |p|)
  {
    assert s[|p|] == 'k' && s[|p| + 1] == 'c' && s[|p| + 2] == 'a' && s[|p| + 3] == 'l';
    assert Lower('k') == 'k' && Lower('c') == 'c' && Lower('a') == 'a' && Lower('l') == 'l';
  }

  /** No case-insensitive "kcal" occurs anywhere in `s`. */
  predicate NoKcal(s: string) {
    forall j: nat :: j < |s| ==> !IsKcalAt(s, j)
  }

  predicate AllDigits(s: string) {
    forall k :: 0 <= k < |s| ==> IsDigit(s[k])
  }

  predicate AllSpaces(s: string) {
    forall k :: 0 <= k < |s| ==> IsSpace(s[k])
  }

  /** The end of the maximal run of digits that starts at `i` (`i` itself when `s[i]` is no digit). */
  function DigitsEnd(s: string, i: nat): (e: nat)
    requires i <= |s|
    ensures i <= e <= |s|
    ensures forall k :: i <= k < e ==> IsDigit(s[k])
    ensures e < |s| ==> !IsDigit(s[e])
    decreases |s| - i
  {
    if i < |s| && IsDigit(s[i]) then DigitsEnd(s, i + 1) else i
  }

  /** The end of the maximal run of white space that starts at `i`. */
  function SpacesEnd(s: string, i: nat): (e: nat)
    requires i <= |s|
    ensures i <= e <= |s|
    ensures forall k :: i <= k < e ==> IsSpace(s[k])
    ensures e < |s| ==> !IsSpace(s[e])
    decreases |s| - i
  {
    if i < |s| && IsSpace(s[i]) then SpacesEnd(s, i + 1) else i
  }

  /** A run end is determined by the three facts `DigitsEnd` promises. */
  lemma DigitsEndUnique(s: string, i: nat, e: nat)
    requires i <= e <= |s|
    requires forall k :: i <= k < e ==> IsDigit(s[k])
    requires e < |s| ==> !IsDigit(s[e])
    ensures DigitsEnd(s, i) == e
  {
  }

  lemma SpacesEndUnique(s: string, i: nat, e: nat)
    requires i <= e <= |s|
    requires forall k :: i <= k < e ==> IsSpace(s[k])
    requires e < |s| ==> !IsSpace(s[e])
    ensures SpacesEnd(s, i) == e
  {
  }

  /** A run of digits stops at the first non-digit. */
  lemma DigitsStopAt(s: string, i: nat, k: nat)
    requires i <= k < |s| && !IsDigit(s[k])
    ensures DigitsEnd(s, i) <= k
  {
  }

  /** A run of white space stops at the first character that is not white space. */
  lemma SpacesStopAt(s: string, i: nat, k: nat)
    requires i <= k < |s| && !IsSpace(s[k])
    ensures SpacesEnd(s, i) <= k
  {
  }

  function DigitValue(c: char): (v: nat)
    requires IsDigit(c)
    ensures v < 10
  {
    c as int - '0' as int
  }

  function DigitChar(v: nat): (c: char)
    requires v < 10
    ensures IsDigit(c) && DigitValue(c) == v
  {
    ('0' as int + v) as char
  }

  /** `parseInt(ds, 10)` of a string of digits, exact on unbounded naturals. */
  function DecimalValue(ds: string): nat
    requires AllDigits(ds)
    decreases |ds|
  {
    if ds == [] then 0 else 10 * DecimalValue(ds[..|ds| - 1]) + DigitValue(ds[|ds| - 1])
  }

  function Pow10(n: nat): (r: nat)
    ensures r >= 1
  {
    if n == 0 then 1 else 10 * Pow10(n - 1)
  }

  lemma {:induction false} Pow10Monotone(i: nat, j: nat)
    requires i <= j
    ensures Pow10(i) <= Pow10(j)
    decreases j
  {
    if i < j {
      Pow10Monotone(i, j - 1);
    }
  }

  /** The value of `n` digits is below `10^n`. */
  lemma {:induction false} DecimalBound(ds: string)
    requires AllDigits(ds)
    ensures DecimalValue(ds) < Pow10(|ds|)
    decreases |ds|
  {
    if ds != [] {
      DecimalBound(ds[..|ds| - 1]);
    }
  }

  /** Reading digits from the front: the first digit weighs `10^(n-1)`. */
  lemma {:induction false} DecimalFront(ds: string)
    requires ds != [] && AllDigits(ds)
    ensures DecimalValue(ds) == DigitValue(ds[0]) * Pow10(|ds| - 1) + DecimalValue(ds[1..])
    decreases |ds|
  {
    var n := |ds|;
    if n > 1 {
      var front := ds[..n - 1];
      var tail := ds[1..];
      DecimalFront(front);
      assert front[1..] == tail[..n - 2];
      assert tail[n - 2] == ds[n - 1];
      var a, p, x, d := DigitValue(ds[0]), Pow10(n - 2), DecimalValue(front[1..]), DigitValue(ds[n - 1]);
      assert DecimalValue(tail) == 10 * x + d;
      assert DecimalValue(ds) == 10 * (a * p + x) + d;
      assert Pow10(n - 1) == 10 * p;
      ShiftDigit(a, p, x, d);
    }
  }

  lemma ShiftDigit(a: nat, p: nat, x: nat, d: nat)
    ensures 10 * (a * p + x) + d == a * (10 * p) + (10 * x + d)
  {
  }

  lemma ScaledLess(x: nat, y: nat, p: nat, u: nat, v: nat)
    requires x < y && u < p
    ensures x * p + u < y * p + v
  {
    assert (x + 1) * p == x * p + p;
    assert y * p >= (x + 1) * p;
  }

  /** On digit strings of one length, string order is numeric order. */
  lemma {:induction false} BelowDigits(a: string, b: string)
    requires |a| == |b| && AllDigits(a) && AllDigits(b)
    ensures Below(a, b) <==> DecimalValue(a) < DecimalValue(b)
    decreases |a|
  {
    if a != [] {
      DecimalFront(a);
      DecimalFront(b);
      DecimalBound(a[1..]);
      DecimalBound(b[1..]);
      var p := Pow10(|a| - 1);
      if a[0] < b[0] {
        ScaledLess(DigitValue(a[0]), DigitValue(b[0]), p, DecimalValue(a[1..]), DecimalValue(b[1..]));
      } else if b[0] < a[0] {
        ScaledLess(DigitValue(b[0]), DigitValue(a[0]), p, DecimalValue(b[1..]), DecimalValue(a[1..]));
      } else {
        BelowDigits(a[1..], b[1..]);
      }
    }
  }

  /** Two numbers with the same digits are equal; `NatToString` is injective. */
  lemma NatToStringInjective(m: nat, n: nat)
    requires NatToString(m) == NatToString(n)
    ensures m == n
  {
  }

  lemma MulAtLeast(a: nat, p: nat)
    requires a >= 1
    ensures a * p >= p
  {
  }

  /** A number in `[10^(k-1), 10^k)` has exactly `k` digits. */
  lemma NatToStringLength(n: nat, k: nat)
    requires 1 <= k && Pow10(k - 1) <= n < Pow10(k)
    ensures |NatToString(n)| == k
  {
    var r := NatToString(n);
    assert DecimalValue(r) == n;
    DecimalBound(r);
    if |r| < k {
      Pow10Monotone(|r|, k - 1);
      assert false;
    } else if |r| > k {
      assert r[0] != '0';
      DecimalFront(r);
      Pow10Monotone(k, |r| - 1);
      MulAtLeast(DigitValue(r[0]), Pow10(|r| - 1));
      assert false;
    }
  }

  /** Comparing two strings whose first parts have one length: first parts, then the rest. */
  lemma {:induction false} BelowConcat(p: string, q: string, s: string, t: string)
    requires |p| == |q|
    ensures Below(p + s, q + t) <==> Below(p, q) || (p == q && Below(s, t))
    decreases |p|
  {
    if p == [] {
      assert p + s == s && q + t == t;
    } else {
      assert (p + s)[0] == p[0] && (q + t)[0] == q[0];
      assert (p + s)[1..] == p[1..] + s && (q + t)[1..] == q[1..] + t;
      BelowConcat(p[1..], q[1..], s, t);
      if p[0] == q[0] && p[1..] == q[1..] {
        assert p == [p[0]] + p[1..] && q == [q[0]] + q[1..];
      }
    }
  }

  /** `String(n)` for a natural number: its decimal digits, without leading zeros. */
  function NatToString(n: nat): (r: string)
    ensures r != [] && AllDigits(r)
    ensures DecimalValue(r) == n
    ensures r[0] == '0' ==> r == "0"
    ensures n < 10 <==> |r| == 1
    ensures 10 <= n < 100 ==> |r| == 2
    decreases n
  {
    if n < 10 then [DigitChar(n)]
    else
      var front := NatToString(n / 10);
      var r := front + [DigitChar(n % 10)];
      assert r[..|r| - 1] == front;
      r
  }

  /** `String(n).padStart(2, "0")`. */
  function PadTwo(n: nat): (r: string)
    ensures AllDigits(r) && DecimalValue(r) == n
    ensures n < 100 ==> |r| == 2
  {
    var digits := NatToString(n);
    if |digits| < 2 then
      var r := "0" + digits;
      assert r[..1] == "0";
      r
    else digits
  }

  /** `s.trimStart()`: the white space at the front removed. */
  function TrimStart(s: string): (r: string)
    ensures |r| <= |s|
    ensures r == [] || !IsSpace(r[0])
    decreases |s|
  {
    if s != [] && IsSpace(s[0]) then TrimStart(s[1..]) else s
  }

  /** `trimStart` removes a run of white space and keeps the rest as it was. */
  lemma {:induction false} TrimStartSuffix(s: string)
    ensures TrimStart(s) == s[|s| - |TrimStart(s)|..]
    ensures AllSpaces(s[..|s| - |TrimStart(s)|])
    decreases |s|
  {
    if s != [] && IsSpace(s[0]) {
      TrimStartSuffix(s[1..]);
      var k := |s| - |TrimStart(s)|;
      assert s[1..][..k - 1] == s[1..k];
      assert s[1..][|s| - 1 - |TrimStart(s)|..] == s[k..];
    }
  }

  /** `s.trimEnd()`: the white space at the back removed. */
  function TrimEnd(s: string): (r: string)
    ensures |r| <= |s|
    ensures r == [] || !IsSpace(r[|r| - 1])
    decreases |s|
  {
    if s != [] && IsSpace(s[|s| - 1]) then TrimEnd(s[..|s| - 1]) else s
  }

  /** `trimEnd` removes a run of white space and keeps the rest as it was. */
  lemma {:induction false} TrimEndPrefix(s: string)
    ensures TrimEnd(s) == s[..|TrimEnd(s)|]
    ensures AllSpaces(s[|TrimEnd(s)|..])
    decreases |s|
  {
    if s != [] && IsSpace(s[|s| - 1]) {
      TrimEndPrefix(s[..|s| - 1]);
      var k := |TrimEnd(s)|;
      assert s[..|s| - 1][..k] == s[..k];
      assert s[..|s| - 1][k..] == s[k..|s| - 1];
    }
  }

  predicate Trimmed(t: string) {
    t == [] || (!IsSpace(t[0]) && !IsSpace(t[|t| - 1]))
  }

  /** `s.trim()`. */
  function Trim(s: string): (r: string)
    ensures Trimmed(r)
    ensures |r| <= |s|
  {
    TrimEndPrefix(TrimStart(s));
    TrimEnd(TrimStart(s))
  }

  /** Trimming a trimmed string changes nothing; in particular `Trim` is idempotent. */
  lemma TrimTrimmed(t: string)
    requires Trimmed(t)
    ensures Trim(t) == t
  {
    assert TrimStart(t) == t;
    assert TrimEnd(t) == t;
  }

  /** Ordinal (code-point) order on strings: `a` sorts strictly before `b`. */
  predicate Below(a: string, b: string)
    decreases |a|
  {
    if a == [] then b != []
    else if b == [] then false
    else if a[0] != b[0] then a[0] < b[0]
    else Below(a[1..], b[1..])
  }

  lemma {:induction false} BelowIrreflexive(a: string)
    ensures !Below(a, a)
    decreases |a|
  {
    if a != [] {
      BelowIrreflexive(a[1..]);
    }
  }

  lemma {:induction false} BelowTransitive(a: string, b: string, c: string)
    requires Below(a, b) && Below(b, c)
    ensures Below(a, c)
    decreases |a|
  {
    if a != [] && a[0] == b[0] && b[0] == c[0] {
      BelowTransitive(a[1..], b[1..], c[1..]);
    }
  }

  /** Two different strings are ordered one way or the other. */
  lemma {:induction false} BelowTotal(a: string, b: string)
    requires a != b
    ensures Below(a, b) || Below(b, a)
    decreases |a|
  {
    if a != [] && b != [] && a[0] == b[0] {
      assert a == [a[0]] + a[1..] && b == [b[0]] + b[1..];
      BelowTotal(a[1..], b[1..]);
    }
  }

  lemma {:induction false} BelowAsymmetric(a: string, b: string)
    requires Below(a, b)
    ensures !Below(b, a)
    decreases |a|
  {
    if a != [] && a[0] == b[0] {
      BelowAsymmetric(a[1..], b[1..]);
    }
  }
}
