/** The numeric helpers of the front end: the storage percentage, the colour
    classes chosen from it, and the relative-date buckets. */
module Formatters {
  import opened Wrappers
  import opened Schema

  function Min(a: int, b: int): int { if a <= b then a else b }

  /** `Math.min(100, Math.round(used / total * 100))`, 0 when `total <= 0`.
      `Math.round` rounds halves up, so the result is the least p with
      100 * used / total < p + 1/2, capped at 100. */
  function StoragePercentage(used: int, total: int): (p: int)
    ensures total <= 0 ==> p == 0
    ensures p <= 100
    ensures total > 0 && p < 100 ==> 2 * total * p <= 200 * used + total < 2 * total * (p + 1)
    ensures total > 0 && p == 100 ==> 200 * used + total >= 200 * total
    ensures total > 0 && used >= 0 ==> p >= 0
  {
    if total <= 0 then 0 else Min(100, (200 * used + total) / (2 * total))
  }

  lemma MulLe(d: int, x: int, y: int)
    requires d > 0 && x <= y
    ensures d * x <= d * y
  {
    var k := y - x;
    assert d * y == d * x + d * k;
    assert d * k >= 0;
  }

  lemma DivMonotone(a: int, b: int, d: int)
    requires a <= b && d > 0
    ensures a / d <= b / d
  {
    var q1, q2 := a / d, b / d;
    assert d * q1 <= a;
    assert b < d * q2 + d;
    if q1 > q2 {
      MulLe(d, q2 + 1, q1);
      assert false;
    }
  }

  /** More usage never shows a smaller percentage. */
  lemma PercentageMonotone(used1: int, used2: int, total: int)
    requires used1 <= used2
    ensures StoragePercentage(used1, total) <= StoragePercentage(used2, total)
  {
    if total > 0 {
      DivMonotone(200 * used1 + total, 200 * used2 + total, 2 * total);
    }
  }

  /** The quotient is the one `q` with `d * q <= a < d * q + d`. */
  lemma DivUnique(a: int, d: int, q: int)
    requires d > 0 && d * q <= a < d * q + d
    ensures a / d == q
  {
    var r := a / d;
    assert d * r <= a < d * r + d;
    if r > q {
      MulLe(d, q + 1, r);
      assert false;
    } else if r < q {
      MulLe(d, r + 1, q);
      assert false;
    }
  }

  /** Using the whole quota shows 100, using nothing shows 0. */
  lemma PercentageEnds(total: int)
    requires total > 0
    ensures StoragePercentage(0, total) == 0 && StoragePercentage(total, total) == 100
  {
    DivUnique(total, 2 * total, 0);
    assert (2 * total) * 100 == 200 * total;
    DivUnique(200 * total + total, 2 * total, 100);
  }

  /** getStorageColor: red from 95, amber from 80, green below. */
  function StorageColor(percentage: int): (c: string)
    ensures c == "text-red-500" <==> percentage >= 95
    ensures c == "text-amber-500" <==> 80 <= percentage < 95
    ensures c == "text-emerald-500" <==> percentage < 80
  {
    if percentage >= 95 then "text-red-500"
    else if percentage >= 80 then "text-amber-500"
    else "text-emerald-500"
  }

  /** getStorageBarColor: the same thresholds with bar classes. */
  function StorageBarColor(percentage: int): (c: string)
    ensures c == "bg-red-500" <==> percentage >= 95
    ensures c == "bg-amber-500" <==> 80 <= percentage < 95
    ensures c == "bg-primary" <==> percentage < 80
  {
    if percentage >= 95 then "bg-red-500"
    else if percentage >= 80 then "bg-amber-500"
    else "bg-primary"
  }

  /** The text colour and the bar colour always show the same level. */
  lemma ColorsAgree(percentage: int)
    ensures StorageColor(percentage) == "text-red-500" <==> StorageBarColor(percentage) == "bg-red-500"
    ensures StorageColor(percentage) == "text-amber-500" <==> StorageBarColor(percentage) == "bg-amber-500"
    ensures StorageColor(percentage) == "text-emerald-500" <==> StorageBarColor(percentage) == "bg-primary"
  {
  }

  const MinuteMs: int := 60000
  const HourMs: int := 3600000
  const DayMs: int := 86400000

  /** What formatDate shows; `CalendarDate` stands for the locale-formatted date. */
  datatype DateLabel =
    | Blank
    | JustNow
    | MinutesAgo(minutes: int)
    | HoursAgo(hours: int)
    | DaysAgo(days: int)
    | CalendarDate(date: Timestamp)

  /** formatDate; `date` is `None` for a null, undefined or empty value, and
      `now` is the clock reading. `Math.floor` is floor division here. */
  function FormatDate(date: Option<Timestamp>, now: Timestamp): (r: DateLabel)
    ensures date.None? <==> r == Blank
    ensures date.Some? && now - date.value < MinuteMs ==> r == JustNow
    ensures r == JustNow ==> date.Some? && now - date.value < MinuteMs
    ensures r.MinutesAgo? ==>
      && date.Some? && 1 <= r.minutes < 60
      && r.minutes * MinuteMs <= now - date.value < (r.minutes + 1) * MinuteMs
    ensures r.HoursAgo? ==>
      && date.Some? && 1 <= r.hours < 24
      && r.hours * HourMs <= now - date.value < (r.hours + 1) * HourMs
    ensures r.DaysAgo? ==>
      && date.Some? && 1 <= r.days < 7
      && r.days * DayMs <= now - date.value < (r.days + 1) * DayMs
    ensures r.CalendarDate? ==> date == Some(r.date) && now - r.date >= 7 * DayMs
  {
    if date.None? then Blank
    else
      var diff := now - date.value;
      var minutes := diff / MinuteMs;
      var hours := diff / HourMs;
      var days := diff / DayMs;
      if minutes < 1 then JustNow
      else if minutes < 60 then MinutesAgo(minutes)
      else if hours < 24 then HoursAgo(hours)
      else if days < 7 then DaysAgo(days)
      else CalendarDate(date.value)
  }

  /** The buckets follow each other without gaps: each range of the
      difference gets exactly one kind of label. */
  lemma DateBuckets(d: Timestamp, now: Timestamp)
    ensures var r := FormatDate(Some(d), now);
      && (now - d < MinuteMs <==> r.JustNow?)
      && (MinuteMs <= now - d < HourMs <==> r.MinutesAgo?)
      && (HourMs <= now - d < DayMs <==> r.HoursAgo?)
      && (DayMs <= now - d < 7 * DayMs <==> r.DaysAgo?)
      && (7 * DayMs <= now - d <==> r.CalendarDate?)
  {
  }
}
