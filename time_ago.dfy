/**
 * "Time ago" labels of posts, replies and the profile page.  The current
 * time is a parameter (`Date.now()` in the source); times are milliseconds.
 */
module TimeAgo {
  import opened Text

  const HOUR_MS := 1000 * 60 * 60
  const DAY_MS := 1000 * 60 * 60 * 24

  /** Which label is shown, with the whole number it shows. */
  datatype Elapsed = DaysAgo(days: int) | HoursAgo(hours: int) | JustNow

  /**
   * The reply and post-card variant: whole hours first, whole days taken
   * from the hours.
   */
  function ByHours(now: int, timestamp: int): (r: Elapsed)
    ensures r.DaysAgo? <==> now - timestamp >= DAY_MS
    ensures r.DaysAgo? ==> r.days >= 1 && r.days * DAY_MS <= now - timestamp < (r.days + 1) * DAY_MS
    ensures r.HoursAgo? <==> HOUR_MS <= now - timestamp < DAY_MS
    ensures r.HoursAgo? ==> 1 <= r.hours < 24 && r.hours * HOUR_MS <= now - timestamp < (r.hours + 1) * HOUR_MS
    ensures r.JustNow? <==> now - timestamp < HOUR_MS
  {
    var diff := now - timestamp;
    var hours := diff / HOUR_MS;
    var days := hours / 24;
    FloorOfFloor(diff);
    if days > 0 then DaysAgo(days)
    else if hours > 0 then HoursAgo(hours)
    else JustNow
  }

  /** The profile-page variant: whole days and whole hours, each from the difference. */
  function ByDays(now: int, timestamp: int): (r: Elapsed)
    ensures r == ByHours(now, timestamp)
  {
    var diff := now - timestamp;
    var days := diff / DAY_MS;
    var hours := diff / HOUR_MS;
    FloorOfFloor(diff);
    if days > 0 then DaysAgo(days)
    else if hours > 0 then HoursAgo(hours)
    else JustNow
  }

  /** Whole days of whole hours are whole days (division rounds down, as `Math.floor` does). */
  lemma FloorOfFloor(diff: int)
    ensures (diff / HOUR_MS) / 24 == diff / DAY_MS
    ensures diff / DAY_MS * DAY_MS <= diff < (diff / DAY_MS + 1) * DAY_MS
    ensures diff / HOUR_MS * HOUR_MS <= diff < (diff / HOUR_MS + 1) * HOUR_MS
  {
    var h := diff / HOUR_MS;
    var d := h / 24;
    assert h * HOUR_MS <= diff < h * HOUR_MS + HOUR_MS;
    assert d * 24 <= h < d * 24 + 24;
    assert d * DAY_MS <= diff < d * DAY_MS + DAY_MS;
  }

  /**
   * The label: "<n> gün önce", "<n> saat önce" or "Az önce" in Turkish, or
   * the translated words of the post card.
   */
  function Describe(e: Elapsed, daysWord: string, hoursWord: string, nowWord: string): (r: string)
    requires e.DaysAgo? ==> e.days >= 0
    requires e.HoursAgo? ==> e.hours >= 0
    ensures e.JustNow? ==> r == nowWord
    ensures e.DaysAgo? ==> exists k :: 0 < k < |r| && r[k..] == " " + daysWord && AllDigits(r[..k]) && DigitsValue(r[..k]) == e.days
    ensures e.HoursAgo? ==> exists k :: 0 < k < |r| && r[k..] == " " + hoursWord && AllDigits(r[..k]) && DigitsValue(r[..k]) == e.hours
  {
    match e
    case DaysAgo(n) => NumberThen(n, daysWord)
    case HoursAgo(n) => NumberThen(n, hoursWord)
    case JustNow => nowWord
  }

  /** `${n} ${word}`; the number reads back as `n`. */
  function NumberThen(n: nat, word: string): (r: string)
    ensures exists k :: 0 < k < |r| && r[k..] == " " + word && AllDigits(r[..k]) && DigitsValue(r[..k]) == n
  {
    var digits := NatToString(n);
    ParseNatToString(n);
    var r := digits + " " + word;
    assert r[..|digits|] == digits && r[|digits|..] == " " + word;
    r
  }

  const DAYS_TR := "g\U{FC}n \U{F6}nce"
  const HOURS_TR := "saat \U{F6}nce"
  const NOW_TR := "Az \U{F6}nce"

  /** `formatTimeAgo` of a reply (Turkish labels). */
  function ReplyTimeAgo(now: int, timestamp: int): (r: string)
    ensures now - timestamp < HOUR_MS <==> r == NOW_TR
  {
    var e := ByHours(now, timestamp);
    if e.JustNow? then NOW_TR
    else
      CountedNotNow(e);
      Describe(e, DAYS_TR, HOURS_TR, NOW_TR)
  }

  /** A label with a number starts with a digit, so it is never "Az önce". */
  lemma CountedNotNow(e: Elapsed)
    requires e.DaysAgo? ==> e.days >= 0
    requires e.HoursAgo? ==> e.hours >= 0
    requires !e.JustNow?
    ensures Describe(e, DAYS_TR, HOURS_TR, NOW_TR) != NOW_TR
  {
    var n := if e.DaysAgo? then e.days else e.hours;
    var word := if e.DaysAgo? then DAYS_TR else HOURS_TR;
    assert Describe(e, DAYS_TR, HOURS_TR, NOW_TR) == NumberThen(n, word);
    var digits := NatToString(n);
    ParseNatToString(n);
    assert NumberThen(n, word)[0] == digits[0];
    assert IsDigit(digits[0]);
    assert NOW_TR[0] == 'A';
  }
}
