/**
 * Calendar dates as the `YYYY-MM-DD` strings the price history stores. Ordering
 * them lexicographically gives the numeric order of year, month and day, since
 * every field has a fixed width; on real calendar dates that is the
 * chronological order `strtotime` gives.
 */
module Dates {

  type Date = string

  /** `a` comes strictly before `b` in lexicographic order. */
  predicate Precedes(a: Date, b: Date)
    decreases |a|
  {
    if |a| == 0 then |b| > 0
    else if |b| == 0 then false
    else if a[0] != b[0] then a[0] < b[0]
    else Precedes(a[1..], b[1..])
  }

  /** `a` is on or before `b`: the order the history is sorted by. */
  predicate OnOrBefore(a: Date, b: Date) {
    !Precedes(b, a)
  }

  lemma {:induction false} PrecedesIrreflexive(a: Date)
    ensures !Precedes(a, a)
  {
    if |a| > 0 {
      PrecedesIrreflexive(a[1..]);
    }
  }

  lemma {:induction false} PrecedesTransitive(a: Date, b: Date, c: Date)
    requires Precedes(a, b) && Precedes(b, c)
    ensures Precedes(a, c)
  {
    if |a| > 0 && a[0] == b[0] && b[0] == c[0] {
      PrecedesTransitive(a[1..], b[1..], c[1..]);
    }
  }

  /** Two different dates are always ordered one way or the other. */
  lemma {:induction false} PrecedesTotal(a: Date, b: Date)
    requires a != b
    ensures Precedes(a, b) || Precedes(b, a)
  {
    if |a| > 0 && |b| > 0 && a[0] == b[0] {
      assert a == [a[0]] + a[1..] && b == [b[0]] + b[1..];
      PrecedesTotal(a[1..], b[1..]);
    }
  }

  /** `OnOrBefore` is a total preorder that is also antisymmetric: a total order. */
  lemma OnOrBeforeTotalOrder(a: Date, b: Date, c: Date)
    ensures OnOrBefore(a, b) || OnOrBefore(b, a)
    ensures OnOrBefore(a, b) && OnOrBefore(b, a) ==> a == b
    ensures OnOrBefore(a, b) && OnOrBefore(b, c) ==> OnOrBefore(a, c)
  {
    if Precedes(a, b) && Precedes(b, a) {
      PrecedesTransitive(a, b, a);
      PrecedesIrreflexive(a);
    }
    if a != b {
      PrecedesTotal(a, b);
    }
    if OnOrBefore(a, b) && OnOrBefore(b, c) && Precedes(c, a) {
      if a == b {
      } else if b == c {
      } else {
        PrecedesTotal(a, b);
        PrecedesTotal(b, c);
        PrecedesTransitive(a, b, c);
        PrecedesTransitive(c, a, c);
        PrecedesIrreflexive(c);
      }
    }
  }

  predicate IsDigit(c: char) {
    '0' <= c <= '9'
  }

  /** The `YYYY-MM-DD` form `date('Y-m-d')` produces. */
  predicate IsIsoDate(s: Date) {
    |s| == 10 && s[4] == '-' && s[7] == '-'
    && forall i :: 0 <= i < 10 && i != 4 && i != 7 ==> IsDigit(s[i])
  }

  /** Two strings of digits and dashes with the dashes in the same places. */
  predicate SameShape(a: Date, b: Date) {
    |a| == |b|
    && forall i :: 0 <= i < |a| ==>
         (a[i] == '-' <==> b[i] == '-') && (a[i] == '-' || IsDigit(a[i])) && (b[i] == '-' || IsDigit(b[i]))
  }

  function Pow10(n: nat): (p: nat)
    ensures p >= 1
  {
    if n == 0 then 1 else 10 * Pow10(n - 1)
  }

  /** How many characters of `s` are not dashes. */
  function DigitCount(s: Date): nat {
    if s == [] then 0 else (if s[0] == '-' then 0 else 1) + DigitCount(s[1..])
  }

  function DigitValue(c: char): (d: nat)
    requires IsDigit(c)
    ensures d <= 9
  {
    c as int - '0' as int
  }

  /** A number written with a smaller leading digit is smaller, whatever follows. */
  lemma LeadingDigitOrder(da: nat, db: nat, p: nat, ra: nat, rb: nat)
    requires da < db && ra < p && rb < p
    ensures da * p + ra < db * p + rb
  {
    var k := db - da - 1;
    assert db * p == (da + 1 + k) * p == da * p + p + k * p;
    assert k * p >= 0;
  }

  /** The digits of `s`, dashes skipped, read as one decimal number: `2024-06-01` is 20240601. */
  function DateNumber(s: Date): (n: nat)
    requires forall i :: 0 <= i < |s| ==> s[i] == '-' || IsDigit(s[i])
    ensures n < Pow10(DigitCount(s))
  {
    if s == [] then 0
    else if s[0] == '-' then DateNumber(s[1..])
    else
      var p := Pow10(DigitCount(s[1..]));
      LeadingDigitOrder(DigitValue(s[0]), 10, p, DateNumber(s[1..]), 0);
      DigitValue(s[0]) * p + DateNumber(s[1..])
  }

  lemma {:induction false} SameShapeDigitCount(a: Date, b: Date)
    requires SameShape(a, b)
    ensures DigitCount(a) == DigitCount(b)
  {
    if a != [] {
      SameShapeDigitCount(a[1..], b[1..]);
    }
  }

  /**
   * For strings of the same digit-and-dash shape the lexicographic order is the
   * numeric order of their digits.
   */
  lemma {:induction false} SameShapeOrder(a: Date, b: Date)
    requires SameShape(a, b)
    ensures Precedes(a, b) <==> DateNumber(a) < DateNumber(b)
  {
    if a != [] {
      var a', b' := a[1..], b[1..];
      assert SameShape(a', b');
      SameShapeOrder(a', b');
      SameShapeDigitCount(a', b');
      if a[0] != '-' && a[0] != b[0] {
        var p := Pow10(DigitCount(a'));
        var da, db := DigitValue(a[0]), DigitValue(b[0]);
        if da < db {
          LeadingDigitOrder(da, db, p, DateNumber(a'), DateNumber(b'));
        } else {
          LeadingDigitOrder(db, da, p, DateNumber(b'), DateNumber(a'));
        }
      }
    }
  }

  /**
   * On `YYYY-MM-DD` dates the lexicographic order is the order of the numbers
   * YYYYMMDD, that is, of (year, month, day). On real calendar dates this is the
   * order `strtotime` gives; an impossible day such as `2024-02-30`, which
   * `strtotime` rolls over into the next month, is ordered by its digits here.
   */
  lemma IsoDateOrder(a: Date, b: Date)
    requires IsIsoDate(a) && IsIsoDate(b)
    ensures Precedes(a, b) <==> DateNumber(a) < DateNumber(b)
  {
    SameShapeOrder(a, b);
  }
}
