/** The relative timestamps shown on listing and request cards
    (Frontend/src/utils/time.js). The clock is a parameter: both instants
    are epoch milliseconds. */
module TimeAgo {

  const MinuteS := 60
  const HourS := 3600
  const DayS := 86400
  const WeekS := 604800

  /** Whole seconds elapsed, rounded toward minus infinity as `Math.floor`
      does, so an instant in the future gives a negative count. */
  function DiffSeconds(nowMs: int, pastMs: int): (d: int)
    ensures 1000 * d <= nowMs - pastMs < 1000 * d + 1000
  {
    (nowMs - pastMs) / 1000
  }

  /** Which of the five texts is shown. */
  datatype Label = JustNow | MinutesAgo(minutes: nat) | HoursAgo(hours: nat) | DaysAgo(days: nat) | FormattedDate

  /** The bucket for an elapsed number of seconds: under a minute (future
      instants included), whole minutes, whole hours, whole days, and from
      a week on the calendar date. */
  function Classify(diff: int): (l: Label)
    ensures l.JustNow? <==> diff < MinuteS
    ensures l.MinutesAgo? <==> MinuteS <= diff < HourS
    ensures l.HoursAgo? <==> HourS <= diff < DayS
    ensures l.DaysAgo? <==> DayS <= diff < WeekS
    ensures l.FormattedDate? <==> WeekS <= diff
    ensures l.MinutesAgo? ==> 1 <= l.minutes <= 59 && l.minutes * MinuteS <= diff < (l.minutes + 1) * MinuteS
    ensures l.HoursAgo? ==> 1 <= l.hours <= 23 && l.hours * HourS <= diff < (l.hours + 1) * HourS
    ensures l.DaysAgo? ==> 1 <= l.days <= 6 && l.days * DayS <= diff < (l.days + 1) * DayS
  {
    if diff < MinuteS then JustNow
    else if diff < HourS then MinutesAgo(diff / MinuteS)
    else if diff < DayS then HoursAgo(diff / HourS)
    else if diff < WeekS then DaysAgo(diff / DayS)
    else FormattedDate
  }

  /** Position of a label on the "older" scale: the bucket first, then the
      number shown in it. */
  function Bucket(l: Label): nat
  {
    match l
    case JustNow => 0
    case MinutesAgo(_) => 1
    case HoursAgo(_) => 2
    case DaysAgo(_) => 3
    case FormattedDate => 4
  }

  function Amount(l: Label): nat
  {
    match l
    case MinutesAgo(n) => n
    case HoursAgo(n) => n
    case DaysAgo(n) => n
    case _ => 0
  }

  predicate NotNewer(a: Label, b: Label)
  {
    Bucket(a) < Bucket(b) || (Bucket(a) == Bucket(b) && Amount(a) <= Amount(b))
  }

  /** An older instant never gets a label that reads as more recent. */
  lemma ClassifyMonotone(d1: int, d2: int)
    requires d1 <= d2
    ensures NotNewer(Classify(d1), Classify(d2))
  {
  }

  /** Decimal digits of a count, as a template literal prints it. */
  function DigitsOf(n: nat): (s: string)
    ensures 1 <= |s|
    ensures forall i :: 0 <= i < |s| ==> '0' <= s[i] <= '9'
    ensures n < 10 <==> |s| == 1
  {
    if n < 10 then [(n as int + '0' as int) as char]
    else DigitsOf(n / 10) + [((n % 10) as int + '0' as int) as char]
  }

  /** The value of a string of decimal digits. */
  function ValueOf(s: string): nat
    requires forall i :: 0 <= i < |s| ==> '0' <= s[i] <= '9'
  {
    if s == [] then 0 else 10 * ValueOf(s[..|s| - 1]) + (s[|s| - 1] as int - '0' as int)
  }

  /** The printed count reads back as the count. */
  lemma {:induction false} DigitsRoundTrip(n: nat)
    ensures ValueOf(DigitsOf(n)) == n
  {
    if n >= 10 {
      var s := DigitsOf(n);
      assert s[..|s| - 1] == DigitsOf(n / 10);
      DigitsRoundTrip(n / 10);
    }
  }

  /** The text shown; the calendar rendering of the last bucket is the
      browser's locale formatting, so it is a parameter. */
  function Render(l: Label, formatted: string): (s: string)
    ensures l.FormattedDate? ==> s == formatted
    ensures l.JustNow? ==> s == "Just now"
    ensures l.MinutesAgo? ==> s == DigitsOf(l.minutes) + " min ago"
    ensures l.HoursAgo? ==> s == DigitsOf(l.hours) + " hours ago"
    ensures l.DaysAgo? ==> s == DigitsOf(l.days) + " days ago"
  {
    match l
    case JustNow => "Just now"
    case MinutesAgo(n) => DigitsOf(n) + " min ago"
    case HoursAgo(n) => DigitsOf(n) + " hours ago"
    case DaysAgo(n) => DigitsOf(n) + " days ago"
    case FormattedDate => formatted
  }

  /** timeAgo: the label text for `pastMs` seen at `nowMs`. */
  function TimeAgo(nowMs: int, pastMs: int, formatted: string): (s: string)
    ensures nowMs < pastMs + 60000 ==> s == "Just now"
    ensures nowMs >= pastMs + WeekS * 1000 ==> s == formatted
  {
    Render(Classify(DiffSeconds(nowMs, pastMs)), formatted)
  }

  /** Worked cases: 90 s reads "1 min ago", 59.999 s and a future instant
      read "Just now", and one hour reads "1 hours ago" (no singular form). */
  lemma Examples()
    ensures TimeAgo(90000, 0, "") == "1 min ago"
    ensures TimeAgo(59999, 0, "") == "Just now"
    ensures TimeAgo(0, 5000, "") == "Just now"
    ensures TimeAgo(3600000, 0, "") == "1 hours ago"
    ensures TimeAgo(6 * 86400000 + 1, 0, "") == "6 days ago"
  {
    assert DigitsOf(1) == "1";
    assert DigitsOf(6) == "6";
  }
}
