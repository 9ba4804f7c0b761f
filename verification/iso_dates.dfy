/**
 * Calendar dates in the `YYYY-MM-DD` form that `Date.prototype.toISOString`
 * starts with, and the fact the usage ledger's retention sweep relies on:
 * for such strings, string `<` is chronological order.
 */
module IsoDates {
  import opened JsStrings

  /** A calendar date; `toISOString` writes four year digits for years 0 to 9999. */
  datatype Date = Date(year: int, month: int, day: int)

  predicate ValidDate(d: Date) {
    0 <= d.year <= 9999 && 1 <= d.month <= 12 && 1 <= d.day <= 31
  }

  /** Chronological order of dates. */
  predicate Before(a: Date, b: Date) {
    a.year < b.year ||
    (a.year == b.year && (a.month < b.month || (a.month == b.month && a.day < b.day)))
  }

  function Pow10(w: nat): (r: nat)
    ensures r >= 1
  {
    if w == 0 then 1 else 10 * Pow10(w - 1)
  }

  function DigitChar(n: int): (c: char)
    requires 0 <= n <= 9
    ensures '0' <= c <= '9'
  {
    ('0' as int + n) as char
  }

  /** `n` written in decimal with exactly `width` digits, padded with leading zeros. */
  function Digits(n: nat, width: nat): (r: string)
    requires n < Pow10(width)
    ensures |r| == width
    ensures forall i :: 0 <= i < |r| ==> '0' <= r[i] <= '9'
  {
    if width == 0 then [] else Digits(n / 10, width - 1) + [DigitChar(n % 10)]
  }

  /** For zero-padded decimals of equal width, string `<` is numeric `<`. */
  lemma {:induction false} DigitsOrder(a: nat, b: nat, width: nat)
    requires a < Pow10(width) && b < Pow10(width)
    ensures LexLess(Digits(a, width), Digits(b, width)) <==> a < b
    decreases width
  {
    if width == 0 {
      assert a == 0 && b == 0;
    } else {
      var ha, hb := Digits(a / 10, width - 1), Digits(b / 10, width - 1);
      var ca, cb := [DigitChar(a % 10)], [DigitChar(b % 10)];
      DigitsOrder(a / 10, b / 10, width - 1);
      if a / 10 == b / 10 {
        LexLessCommonHead(ha, ca, cb);
        assert LexLess(ca, cb) <==> a % 10 < b % 10 by {
          assert ca[1..] == [] && cb[1..] == [];
        }
      } else {
        DigitsOrder(b / 10, a / 10, width - 1);
        LexLessIrreflexive(ha);
        assert ha != hb;
        LexLessDifferentHeads(ha, hb, ca, cb);
      }
    }
  }

  /** Zero-padded decimals of equal width are equal only for equal numbers. */
  lemma DigitsInjective(a: nat, b: nat, width: nat)
    requires a < Pow10(width) && b < Pow10(width)
    requires Digits(a, width) == Digits(b, width)
    ensures a == b
  {
    LexLessIrreflexive(Digits(a, width));
    DigitsOrder(a, b, width);
    DigitsOrder(b, a, width);
  }

  /** The `MM-DD` tail of a date's text. */
  function MonthDay(d: Date): (r: string)
    requires ValidDate(d)
  {
    Digits(d.month, 2) + (['-'] + Digits(d.day, 2))
  }

  /** The `YYYY-MM-DD` text of a valid date. */
  function FormatDate(d: Date): (r: string)
    requires ValidDate(d)
    ensures |r| == 10 && r[4] == '-' && r[7] == '-'
    ensures ':' !in r && 'T' !in r
  {
    Digits(d.year, 4) + (['-'] + MonthDay(d))
  }

  lemma MonthDayOrder(a: Date, b: Date)
    requires ValidDate(a) && ValidDate(b)
    ensures LexLess(MonthDay(a), MonthDay(b)) <==>
            (a.month < b.month || (a.month == b.month && a.day < b.day))
  {
    var ma, mb := Digits(a.month, 2), Digits(b.month, 2);
    var da, db := Digits(a.day, 2), Digits(b.day, 2);
    DigitsOrder(a.month, b.month, 2);
    if a.month != b.month {
      if ma == mb { DigitsInjective(a.month, b.month, 2); }
      LexLessDifferentHeads(ma, mb, ['-'] + da, ['-'] + db);
    } else {
      LexLessCommonHead(ma, ['-'] + da, ['-'] + db);
      LexLessCommonHead(['-'], da, db);
      DigitsOrder(a.day, b.day, 2);
    }
  }

  /** For `YYYY-MM-DD` strings, string `<` is chronological order. */
  lemma FormatDateOrder(a: Date, b: Date)
    requires ValidDate(a) && ValidDate(b)
    ensures LexLess(FormatDate(a), FormatDate(b)) <==> Before(a, b)
  {
    var ya, yb := Digits(a.year, 4), Digits(b.year, 4);
    DigitsOrder(a.year, b.year, 4);
    if a.year != b.year {
      if ya == yb { DigitsInjective(a.year, b.year, 4); }
      LexLessDifferentHeads(ya, yb, ['-'] + MonthDay(a), ['-'] + MonthDay(b));
    } else {
      LexLessCommonHead(ya, ['-'] + MonthDay(a), ['-'] + MonthDay(b));
      LexLessCommonHead(['-'], MonthDay(a), MonthDay(b));
      MonthDayOrder(a, b);
    }
  }

  /** Distinct valid dates have distinct `YYYY-MM-DD` texts. */
  lemma FormatDateInjective(a: Date, b: Date)
    requires ValidDate(a) && ValidDate(b) && a != b
    ensures FormatDate(a) != FormatDate(b)
  {
    FormatDateOrder(a, b);
    FormatDateOrder(b, a);
    LexLessIrreflexive(FormatDate(a));
  }

  /** `iso.split('T')[0]`: the calendar-day part of an ISO timestamp. */
  function DayOf(iso: string): (r: string)
    ensures r <= iso && 'T' !in r
  {
    FirstField(iso, 'T')
  }

  /** The day part of `toISOString()`'s `YYYY-MM-DDTHH:mm:ss.sssZ` is the formatted date. */
  lemma DayOfTimestamp(d: Date, time: string)
    requires ValidDate(d)
    ensures DayOf(FormatDate(d) + "T" + time) == FormatDate(d)
  {
    var f := FormatDate(d);
    var s := f + "T" + time;
    var r := DayOf(s);
    assert s[|f|] == 'T';
    assert forall i :: 0 <= i < |f| ==> s[i] == f[i];
    assert r == s[..|f|] == f;
  }
}
