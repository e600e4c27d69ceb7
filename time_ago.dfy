/** The relative publication time shown next to a headline: "Just now" under a
    minute, whole minutes under an hour, whole hours under a day, and a locale
    date or time string beyond that. */
module TimeAgo {
  import opened Wrappers
  import opened Text

  const SecondsPerMinute: int := 60
  const SecondsPerHour: int := 3600
  const SecondsPerDay: int := 86400

  datatype Bucket = JustNow | MinutesAgo(minutes: nat) | HoursAgo(hours: nat) | Locale

  /** `Math.floor((now - published) / 1000)`; Euclidean division by a positive
      divisor rounds towards minus infinity, as `Math.floor` does. */
  function ElapsedSeconds(now: int, publishedAt: int): int {
    (now - publishedAt) / 1000
  }

  /** `formatTimeAgo`, up to the choice of the locale-formatted text. */
  function FormatTimeAgo(now: int, publishedAt: int): (b: Bucket)
    ensures var d := ElapsedSeconds(now, publishedAt);
      && (b == JustNow <==> d < SecondsPerMinute)
      && (b.MinutesAgo? <==> SecondsPerMinute <= d < SecondsPerHour)
      && (b.HoursAgo? <==> SecondsPerHour <= d < SecondsPerDay)
      && (b == Locale <==> d >= SecondsPerDay)
    ensures b.MinutesAgo? ==> 1 <= b.minutes <= 59
    ensures b.HoursAgo? ==> 1 <= b.hours <= 23
  {
    var d := ElapsedSeconds(now, publishedAt);
    if d < SecondsPerMinute then JustNow
    else if d < SecondsPerHour then MinutesAgo(d / SecondsPerMinute)
    else if d < SecondsPerDay then HoursAgo(d / SecondsPerHour)
    else Locale
  }

  /** The minutes and hours shown are the elapsed time rounded down. */
  lemma FormatTimeAgoFloors(now: int, publishedAt: int)
    ensures var b := FormatTimeAgo(now, publishedAt); var d := ElapsedSeconds(now, publishedAt);
      && (b.MinutesAgo? ==> b.minutes * SecondsPerMinute <= d < (b.minutes + 1) * SecondsPerMinute)
      && (b.HoursAgo? ==> b.hours * SecondsPerHour <= d < (b.hours + 1) * SecondsPerHour)
  {
  }

  /** The text shown; `None` for the locale-dependent text. */
  function Render(b: Bucket): Option<string> {
    match b
    case JustNow => Some("Just now")
    case MinutesAgo(m) => Some(NatToString(m) + "m ago")
    case HoursAgo(h) => Some(NatToString(h) + "h ago")
    case Locale => None
  }

  /** How old a bucket says the headline is, in minutes. */
  function AgeInMinutes(b: Bucket): nat {
    match b
    case JustNow => 0
    case MinutesAgo(m) => m
    case HoursAgo(h) => 60 * h
    case Locale => 24 * 60
  }

  lemma DivMonotone(a: int, b: int, k: int)
    requires 0 < k && a <= b
    ensures a / k <= b / k
  {
    if a / k > b / k {
      MulSplit(k, b / k, a / k - b / k);
    }
  }

  lemma MulSplit(k: int, q: int, d: int)
    requires k > 0 && d >= 1
    ensures k * (q + d) >= k * q + k
  {
    assert k * (q + d) == k * q + k * d;
  }

  /** As the clock advances, a headline never looks younger than before. */
  lemma LaterNeverYounger(now1: int, now2: int, publishedAt: int)
    requires now1 <= now2
    ensures AgeInMinutes(FormatTimeAgo(now1, publishedAt)) <= AgeInMinutes(FormatTimeAgo(now2, publishedAt))
  {
    var d1, d2 := ElapsedSeconds(now1, publishedAt), ElapsedSeconds(now2, publishedAt);
    DivMonotone(now1 - publishedAt, now2 - publishedAt, 1000);
    DivMonotone(d1, d2, SecondsPerMinute);
    DivMonotone(d1, d2, SecondsPerHour);
  }

  lemma SuffixCancel(x: string, y: string, s: string)
    requires x + s == y + s
    ensures x == y
  {
    assert |x| == |y|;
    assert x == (x + s)[..|x|];
    assert y == (y + s)[..|y|];
  }

  lemma NatToStringInjective(a: nat, b: nat)
    requires NatToString(a) == NatToString(b)
    ensures a == b
  {
  }

  /** The character five places from the end tells the buckets apart. */
  function Tag(b: Bucket): char {
    match b
    case JustNow => 't'
    case MinutesAgo(_) => 'm'
    case HoursAgo(_) => 'h'
    case Locale => ' '
  }

  lemma RenderTag(b: Bucket)
    requires Render(b).Some?
    ensures |Render(b).value| >= 5 && Render(b).value[|Render(b).value| - 5] == Tag(b)
  {
  }

  /** Distinct buckets render as distinct texts, so the text tells the bucket
      and the number back. */
  lemma RenderInjective(a: Bucket, b: Bucket)
    requires Render(a).Some? && Render(a) == Render(b)
    ensures a == b
  {
    RenderTag(a);
    RenderTag(b);
    if a.MinutesAgo? && b.MinutesAgo? {
      SuffixCancel(NatToString(a.minutes), NatToString(b.minutes), "m ago");
      NatToStringInjective(a.minutes, b.minutes);
    } else if a.HoursAgo? && b.HoursAgo? {
      SuffixCancel(NatToString(a.hours), NatToString(b.hours), "h ago");
      NatToStringInjective(a.hours, b.hours);
    }
  }
}
