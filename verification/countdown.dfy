/**
 * `getTimeUntilChristmas` of the countdown hook: the time left until the next
 * Christmas midnight, split into days, hours, minutes and seconds.
 *
 * Times are milliseconds since the epoch. The clock reading and the two
 * candidate targets (December 25, 00:00 local time, of the current and of
 * the next year, which `new Date(year, 11, 25)` computes) are parameters.
 */
module Countdown {

  const MS_PER_SECOND: int := 1000
  const MS_PER_MINUTE: int := 1000 * 60
  const MS_PER_HOUR: int := 1000 * 60 * 60
  const MS_PER_DAY: int := 1000 * 60 * 60 * 24

  datatype Remaining = Remaining(days: int, hours: int, minutes: int, seconds: int)

  /** `a % b` in JavaScript for a positive `b`: the remainder takes the sign of `a`. */
  function JsRem(a: int, b: int): (r: int)
    requires b > 0
    ensures a >= 0 ==> 0 <= r < b && r == a % b
    ensures a < 0 ==> -b < r <= 0
  {
    if a >= 0 then a % b else -((-a) % b)
  }

  /** The target: this year's Christmas, or next year's once now is strictly past it. */
  function Target(now: int, christmasThisYear: int, christmasNextYear: int): (t: int)
    ensures now <= christmasThisYear ==> t == christmasThisYear
    ensures now > christmasThisYear ==> t == christmasNextYear
    ensures now <= christmasNextYear ==> t >= now
  {
    if now > christmasThisYear then christmasNextYear else christmasThisYear
  }

  /**
   * The four fields, each `Math.floor` of a remainder divided by its unit.
   * For a difference that is not negative: each field is within its range,
   * and the fields recombine to the difference rounded down to a second.
   */
  function Decompose(diff: int): (r: Remaining)
    ensures diff >= 0 ==> r.days >= 0 && 0 <= r.hours < 24 && 0 <= r.minutes < 60 && 0 <= r.seconds < 60
    ensures diff >= 0 ==>
      var whole := r.days * MS_PER_DAY + r.hours * MS_PER_HOUR + r.minutes * MS_PER_MINUTE + r.seconds * MS_PER_SECOND;
      whole <= diff < whole + MS_PER_SECOND
  {
    var r := Remaining(diff / MS_PER_DAY,
                       JsRem(diff, MS_PER_DAY) / MS_PER_HOUR,
                       JsRem(diff, MS_PER_HOUR) / MS_PER_MINUTE,
                       JsRem(diff, MS_PER_MINUTE) / MS_PER_SECOND);
    RecombineAny(diff);
    r
  }

  /** The recombination, one unit at a time. */
  lemma Recombine(diff: int)
    requires diff >= 0
    ensures var d, h, m, s := diff / MS_PER_DAY, (diff % MS_PER_DAY) / MS_PER_HOUR,
                              (diff % MS_PER_HOUR) / MS_PER_MINUTE, (diff % MS_PER_MINUTE) / MS_PER_SECOND;
      && 0 <= h < 24 && 0 <= m < 60 && 0 <= s < 60
      && var whole := d * MS_PER_DAY + h * MS_PER_HOUR + m * MS_PER_MINUTE + s * MS_PER_SECOND;
         whole <= diff < whole + MS_PER_SECOND
  {
    ModOfProduct(diff, MS_PER_SECOND, 60);
    ModOfProduct(diff, MS_PER_MINUTE, 60);
    ModOfProduct(diff, MS_PER_HOUR, 24);
    var sec := diff / MS_PER_SECOND;
    var min := sec / 60;
    var hr := min / 60;
    var day := hr / 24;
    assert diff == sec * MS_PER_SECOND + diff % MS_PER_SECOND;
    assert sec == min * 60 + sec % 60;
    assert min == hr * 60 + min % 60;
    assert hr == day * 24 + hr % 24;
  }

  lemma MulAtLeast(k: int, b: int)
    requires k >= 1 && b > 0
    ensures k * b >= b
  {
    var j := k - 1;
    assert k * b == j * b + b;
    assert j * b >= 0;
  }

  /** Quotient and remainder are unique. */
  lemma DivModUnique(a: int, b: int, q: int, r: int)
    requires b > 0 && 0 <= r < b && a == q * b + r
    ensures a / b == q && a % b == r
  {
    var q0, r0 := a / b, a % b;
    assert a == q0 * b + r0;
    if q0 > q {
      assert (q0 - q) * b == r - r0;
      MulAtLeast(q0 - q, b);
    } else if q0 < q {
      assert (q - q0) * b == r0 - r;
      MulAtLeast(q - q0, b);
    }
  }

  /** Splitting off the unit `b` and then the unit `c` is splitting off the unit `b * c`. */
  lemma ModOfProduct(a: int, b: int, c: int)
    requires a >= 0 && b > 0 && c > 0
    ensures (a % (b * c)) / b == (a / b) % c
    ensures (a % (b * c)) % b == a % b
    ensures a / (b * c) == (a / b) / c
  {
    var q1, r1 := a / b, a % b;
    var q2, r2 := q1 / c, q1 % c;
    assert a == q1 * b + r1;
    assert q1 == q2 * c + r2;
    Regroup(q2, c, r2, b);
    RemainderBelowProduct(r2, b, c, r1);
    DivModUnique(a, b * c, q2, r2 * b + r1);
    DivModUnique(r2 * b + r1, b, r2, r1);
  }

  lemma Regroup(q: int, c: int, r: int, b: int)
    ensures (q * c + r) * b == q * (b * c) + r * b
  {
  }

  lemma RemainderBelowProduct(r2: int, b: int, c: int, r1: int)
    requires 0 <= r2 < c && 0 <= r1 < b
    ensures 0 <= r2 * b + r1 < b * c
  {
    assert r2 * b <= (c - 1) * b;
    assert (c - 1) * b == b * c - b;
  }

  lemma RecombineAny(diff: int)
    ensures diff >= 0 ==>
      var d, h, m, s := diff / MS_PER_DAY, (diff % MS_PER_DAY) / MS_PER_HOUR,
                        (diff % MS_PER_HOUR) / MS_PER_MINUTE, (diff % MS_PER_MINUTE) / MS_PER_SECOND;
      && 0 <= h < 24 && 0 <= m < 60 && 0 <= s < 60
      && var whole := d * MS_PER_DAY + h * MS_PER_HOUR + m * MS_PER_MINUTE + s * MS_PER_SECOND;
         whole <= diff < whole + MS_PER_SECOND
  {
    if diff >= 0 {
      Recombine(diff);
    }
  }

  /** `getTimeUntilChristmas`. */
  function TimeUntilChristmas(now: int, christmasThisYear: int, christmasNextYear: int): (r: Remaining)
    ensures now <= christmasNextYear ==> r.days >= 0 && 0 <= r.hours < 24 && 0 <= r.minutes < 60 && 0 <= r.seconds < 60
  {
    Decompose(Target(now, christmasThisYear, christmasNextYear) - now)
  }

  /** At Christmas midnight the countdown reads zero; one millisecond later it counts to next year. */
  lemma ChristmasMidnight(christmasThisYear: int, christmasNextYear: int)
    requires christmasThisYear < christmasNextYear
    ensures TimeUntilChristmas(christmasThisYear, christmasThisYear, christmasNextYear) == Remaining(0, 0, 0, 0)
    ensures Target(christmasThisYear + 1, christmasThisYear, christmasNextYear) == christmasNextYear
  {
  }

  /**
   * The countdown never overshoots: the recombined fields are at most the
   * time left, and less than a second short of it.
   */
  lemma CountdownIsExactToTheSecond(now: int, christmasThisYear: int, christmasNextYear: int)
    requires now <= christmasNextYear
    ensures var r := TimeUntilChristmas(now, christmasThisYear, christmasNextYear);
      var left := Target(now, christmasThisYear, christmasNextYear) - now;
      var whole := r.days * MS_PER_DAY + r.hours * MS_PER_HOUR + r.minutes * MS_PER_MINUTE + r.seconds * MS_PER_SECOND;
      0 <= whole <= left < whole + MS_PER_SECOND
  {
  }
}
