/** app/components/TimeAgo.tsx: the label under a post saying how long ago it was written. */
module TimeAgo {
  import opened Text

  const Minute := 60
  const Hour := 3600
  const Day := 86400
  const Week := 604800
  const Month := 2592000

  /** The unit the label uses, with its count; older than thirty days, a calendar date. */
  datatype Ago = Seconds(n: int) | Minutes(n: int) | Hours(n: int) | Days(n: int) | Weeks(n: int) | CalendarDate

  /** `Math.floor((now - postDate) / 1000)`, both instants in milliseconds. */
  function ElapsedSeconds(nowMs: int, postMs: int): (d: int)
    ensures d * 1000 <= nowMs - postMs < d * 1000 + 1000
  {
    (nowMs - postMs) / 1000
  }

  /** The if-chain of updateTimeAgo: each count is the whole number of its unit elapsed. */
  function Bucket(diff: int): (a: Ago)
    ensures a.Seconds? <==> diff < Minute
    ensures a.Minutes? <==> Minute <= diff < Hour
    ensures a.Hours? <==> Hour <= diff < Day
    ensures a.Days? <==> Day <= diff < Week
    ensures a.Weeks? <==> Week <= diff < Month
    ensures a.CalendarDate? <==> Month <= diff
    ensures a.Seconds? ==> a.n == diff
    ensures a.Minutes? ==> 1 <= a.n <= 59 && a.n * Minute <= diff < (a.n + 1) * Minute
    ensures a.Hours? ==> 1 <= a.n <= 23 && a.n * Hour <= diff < (a.n + 1) * Hour
    ensures a.Days? ==> 1 <= a.n <= 6 && a.n * Day <= diff < (a.n + 1) * Day
    ensures a.Weeks? ==> 1 <= a.n <= 4 && a.n * Week <= diff < (a.n + 1) * Week
  {
    if diff < Minute then Seconds(diff)
    else if diff < Hour then Minutes(diff / Minute)
    else if diff < Day then Hours(diff / Hour)
    else if diff < Week then Days(diff / Day)
    else if diff < Month then Weeks(diff / Week)
    else CalendarDate
  }

  /** The text shown; `calendarDate` stands for `toLocaleDateString` of the post's date. */
  function Label(a: Ago, calendarDate: string): string {
    match a
    case Seconds(n) => IntToString(n) + "s ago"
    case Minutes(n) => IntToString(n) + "m ago"
    case Hours(n) => IntToString(n) + "h ago"
    case Days(n) => IntToString(n) + "d ago"
    case Weeks(n) => IntToString(n) + "w ago"
    case CalendarDate => calendarDate
  }

  function UpdateTimeAgo(nowMs: int, postMs: int, calendarDate: string): string {
    Label(Bucket(ElapsedSeconds(nowMs, postMs)), calendarDate)
  }

  /** The coarseness of a unit, from seconds (0) to the calendar date (5). */
  function Rank(a: Ago): nat {
    match a
    case Seconds(_) => 0
    case Minutes(_) => 1
    case Hours(_) => 2
    case Days(_) => 3
    case Weeks(_) => 4
    case CalendarDate => 5
  }

  /** As time passes the label never moves to a finer unit, and within a unit its count
      never decreases. */
  lemma BucketMonotone(d1: int, d2: int)
    requires d1 <= d2
    ensures Rank(Bucket(d1)) <= Rank(Bucket(d2))
    ensures Rank(Bucket(d1)) == Rank(Bucket(d2)) && !Bucket(d1).CalendarDate? ==> Bucket(d1).n <= Bucket(d2).n
  {
  }

  /** The unit changes exactly at the thresholds. */
  lemma Thresholds()
    ensures Bucket(59) == Seconds(59) && Bucket(60) == Minutes(1)
    ensures Bucket(3599) == Minutes(59) && Bucket(3600) == Hours(1)
    ensures Bucket(86399) == Hours(23) && Bucket(86400) == Days(1)
    ensures Bucket(604799) == Days(6) && Bucket(604800) == Weeks(1)
    ensures Bucket(2591999) == Weeks(4) && Bucket(2592000) == CalendarDate
  {
  }

  /** Milliseconds are dropped: 45.999 seconds is "45s ago". */
  lemma SecondsLabel(calendarDate: string)
    ensures UpdateTimeAgo(45999, 0, calendarDate) == "45s ago"
  {
    assert ElapsedSeconds(45999, 0) == 45;
    assert NatToString(45) == "45";
  }

  /** A post dated in the future shows a negative number of seconds: half a second ahead is
      already "-1s ago", because the division rounds down. */
  lemma FutureDateIsNegativeSeconds(calendarDate: string)
    ensures UpdateTimeAgo(0, 500, calendarDate) == "-1s ago"
    ensures forall nowMs: int, postMs: int :: nowMs < postMs ==> Bucket(ElapsedSeconds(nowMs, postMs)).Seconds?
  {
    assert ElapsedSeconds(0, 500) == -1;
    assert IntToString(-1) == "-1";
  }

  /** Two days and a bit is "2d ago". */
  lemma DaysLabel(calendarDate: string)
    ensures UpdateTimeAgo(2 * 86400 * 1000 + 5000, 0, calendarDate) == "2d ago"
  {
    assert ElapsedSeconds(2 * 86400 * 1000 + 5000, 0) == 172805;
    assert Bucket(172805) == Days(2);
    assert IntToString(2) == "2";
  }
}
