/**
 * `timeAgo` (src/lib/format.ts): how long ago an instant was, in whole minutes, hours or days.
 *
 * The clock is the parameter `now` in milliseconds since the epoch; the instant parsed from the
 * ISO string is `Some(ms)`, or `None` when `new Date(iso)` is an invalid date (its time is NaN).
 */
module Format {
  import opened Wrappers
  import opened Text

  const MS_PER_MINUTE := 60000

  /** The bucket `timeAgo` renders; `NaN` is what every step computes from an invalid date. */
  datatype Age = Minutes(n: nat) | Hours(n: nat) | Days(n: nat) | NaN

  /**
   * The bucket of `now - at`: the difference is clamped at zero, floored to minutes, and the
   * minutes are floored to hours from 60 on, the hours to days from 24 on.
   */
  function Elapsed(now: int, at: Option<int>): (a: Age)
    ensures at.None? <==> a.NaN?
    ensures a.Minutes? ==> a.n < 60
    ensures a.Hours? ==> 1 <= a.n < 24
    ensures a.Days? ==> a.n >= 1
  {
    match at
    case None => NaN
    case Some(t) =>
      var diff := if now - t > 0 then now - t else 0;
      var minutes := diff / MS_PER_MINUTE;
      if minutes < 60 then Minutes(minutes)
      else
        var hours := minutes / 60;
        if hours < 24 then Hours(hours)
        else Days(hours / 24)
  }

  /** The text of a bucket: the number, the unit letter and ` ago`; NaN prints as `NaN`. */
  function Render(a: Age): string {
    match a
    case Minutes(n) => NatToString(n) + "m ago"
    case Hours(n) => NatToString(n) + "h ago"
    case Days(n) => NatToString(n) + "d ago"
    case NaN => "NaNd ago"
  }

  function TimeAgo(now: int, at: Option<int>): string {
    Render(Elapsed(now, at))
  }

  /** The whole minutes elapsed, zero for an instant in the future. */
  function MinutesSince(now: int, t: int): nat {
    (if now - t > 0 then now - t else 0) / MS_PER_MINUTE
  }

  // ---------------------------------------------------------------------------------------------
  // The buckets

  /** An instant at or after `now` is `0m ago`. */
  lemma FutureIsNow(now: int, t: int)
    requires t >= now
    ensures TimeAgo(now, Some(t)) == "0m ago"
  {
    assert Elapsed(now, Some(t)) == Minutes(0);
    assert NatToString(0) == "0";
  }

  /** An invalid date renders as `NaNd ago`. */
  lemma InvalidDate(now: int)
    ensures TimeAgo(now, None) == "NaNd ago"
  {
  }

  /**
   * The three ranges of elapsed minutes: below an hour the minutes, below a day the whole hours,
   * otherwise the whole days, that is the minutes divided by 1440.
   */
  lemma Buckets(now: int, t: int)
    ensures var m := MinutesSince(now, t);
            && (m < 60 ==> Elapsed(now, Some(t)) == Minutes(m))
            && (60 <= m < 1440 ==> Elapsed(now, Some(t)) == Hours(m / 60))
            && (1440 <= m ==> Elapsed(now, Some(t)) == Days(m / 1440))
  {
    var m := MinutesSince(now, t);
    if 60 <= m {
      HoursOfMinutes(m);
      DaysOfMinutes(m);
    }
  }

  lemma HoursOfMinutes(m: nat)
    ensures m / 60 < 24 <==> m < 1440
  {
    var h := m / 60;
    assert m == 60 * h + m % 60;
  }

  /** Flooring to hours and then to days is flooring to days. */
  lemma DaysOfMinutes(m: nat)
    ensures m / 60 / 24 == m / 1440
  {
    var h, d := m / 60, m / 60 / 24;
    assert m == 60 * h + m % 60;
    assert h == 24 * d + h % 24;
    assert m == 1440 * d + (60 * (h % 24) + m % 60);
    assert 0 <= 60 * (h % 24) + m % 60 < 1440;
  }

  // ---------------------------------------------------------------------------------------------
  // Monotonicity

  /** The order of buckets: minutes before hours before days, and by number within a unit. */
  predicate AgeLe(a: Age, b: Age)
    requires !a.NaN? && !b.NaN?
  {
    if a.Minutes? then !b.Minutes? || a.n <= b.n
    else if a.Hours? then b.Days? || (b.Hours? && a.n <= b.n)
    else b.Days? && a.n <= b.n
  }

  /** An earlier instant is never shown as more recent: the bucket grows with the elapsed time. */
  lemma Monotone(now: int, t1: int, t2: int)
    requires t2 <= t1
    ensures AgeLe(Elapsed(now, Some(t1)), Elapsed(now, Some(t2)))
  {
    var m1, m2 := MinutesSince(now, t1), MinutesSince(now, t2);
    DivMonotone(if now - t1 > 0 then now - t1 else 0, if now - t2 > 0 then now - t2 else 0, MS_PER_MINUTE);
    DivMonotone(m1, m2, 60);
    DivMonotone(m1 / 60, m2 / 60, 24);
  }

  lemma DivMonotone(x: nat, y: nat, d: nat)
    requires x <= y && d > 0
    ensures x / d <= y / d
  {
    var qx, qy := x / d, y / d;
    assert x == d * qx + x % d;
    assert y == d * qy + y % d;
    assert d * (qx - qy) < d * 1;
    MulCancel(d, qx - qy, 1);
  }

  lemma MulCancel(d: nat, a: int, b: int)
    requires d > 0 && d * a < d * b
    ensures a < b
  {
    assert d * b - d * a == d * (b - a);
  }

  // ---------------------------------------------------------------------------------------------
  // The text determines the bucket

  /** Two buckets with the same text are the same bucket. */
  lemma RenderInjective(a: Age, b: Age)
    requires Render(a) == Render(b)
    ensures a == b
  {
    var r := Render(a);
    UnitLetter(a);
    UnitLetter(b);
    if !a.NaN? && !b.NaN? {
      assert NatToString(a.n) == r[..|r| - 5] == NatToString(b.n);
      DecimalRoundTrip(a.n);
      DecimalRoundTrip(b.n);
    }
  }

  /** The fifth character from the end names the unit; only `NaN` starts with a non-digit. */
  lemma UnitLetter(a: Age)
    ensures var r := Render(a);
            && |r| >= 6
            && r[|r| - 5..] == (if a.Minutes? then "m ago" else if a.Hours? then "h ago" else "d ago")
            && (IsDigit(r[0]) <==> !a.NaN?)
            && (!a.NaN? ==> r[..|r| - 5] == NatToString(a.n))
  {
  }
}
