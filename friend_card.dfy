/** What apps/friends-app/FriendCard.tsx derives from a friend: past and future meetings, the next
    meeting, the days since the last one, and the days until the birthday. `now` is the render's
    `new Date()` in milliseconds and `timeOf` stands for `new Date(date).getTime()`. */
module FriendCard {
  import opened Wrappers
  import opened FriendsTypes
  import Collections
  import Calendar

  // ---------------------------------------------------------------------------
  // Past and future meetings
  // ---------------------------------------------------------------------------

  function IsPast(now: int, timeOf: string -> int): Meeting -> bool
  {
    (m: Meeting) => timeOf(m.date) < now
  }

  function IsFuture(now: int, timeOf: string -> int): Meeting -> bool
  {
    (m: Meeting) => timeOf(m.date) >= now
  }

  /** `pastMeetings`: the meetings strictly before now, in their stored order. */
  function PastMeetings(meetings: seq<Meeting>, now: int, timeOf: string -> int): (past: seq<Meeting>)
    ensures forall m :: m in past <==> m in meetings && timeOf(m.date) < now
    ensures Collections.Subsequence(past, meetings)
  {
    Collections.Filter(meetings, IsPast(now, timeOf))
  }

  /** `futureMeetings`: the meetings at or after now, in their stored order. */
  function FutureMeetings(meetings: seq<Meeting>, now: int, timeOf: string -> int): (future: seq<Meeting>)
    ensures forall m :: m in future <==> m in meetings && timeOf(m.date) >= now
    ensures Collections.Subsequence(future, meetings)
  {
    Collections.Filter(meetings, IsFuture(now, timeOf))
  }

  /** Every meeting is past or future and none is both: the two lists together are the meetings. */
  lemma PastFuturePartition(meetings: seq<Meeting>, now: int, timeOf: string -> int)
    ensures multiset(PastMeetings(meetings, now, timeOf)) + multiset(FutureMeetings(meetings, now, timeOf))
      == multiset(meetings)
  {
    Collections.FilterPartition(meetings, IsPast(now, timeOf), IsFuture(now, timeOf));
  }

  // ---------------------------------------------------------------------------
  // The next meeting and the last one
  // ---------------------------------------------------------------------------

  /** `upcomingMeeting`: the first of the future meetings once sorted by time, if there are any. */
  function UpcomingMeeting(meetings: seq<Meeting>, now: int, timeOf: string -> int): (next: Option<Meeting>)
    ensures next.None? <==> forall m :: m in meetings ==> timeOf(m.date) < now
    ensures next.Some? ==> next.value in meetings && timeOf(next.value.date) >= now
    ensures next.Some? ==> forall m :: m in meetings && timeOf(m.date) >= now ==>
      timeOf(next.value.date) <= timeOf(m.date)
    ensures next.Some? ==> exists k :: (0 <= k < |meetings| && meetings[k] == next.value
      && forall j :: 0 <= j < k ==> timeOf(meetings[j].date) != timeOf(next.value.date))
  {
    var future := FutureMeetings(meetings, now, timeOf);
    if future == [] then None
    else
      OrdersArePreorders(timeOf);
      Collections.SortedHeadIsLeast(future, Earlier(timeOf));
      FirstStoredOfEarliest(meetings, now, timeOf);
      Some(Collections.SortBy(future, Earlier(timeOf))[0])
  }

  /** The stable sort puts first the earliest future meeting that is stored first among those at its time. */
  lemma FirstStoredOfEarliest(meetings: seq<Meeting>, now: int, timeOf: string -> int)
    requires FutureMeetings(meetings, now, timeOf) != []
    ensures Collections.TotalPreorder(Earlier(timeOf))
    ensures var next := Collections.SortBy(FutureMeetings(meetings, now, timeOf), Earlier(timeOf))[0];
      exists k :: (0 <= k < |meetings| && meetings[k] == next
        && forall j :: 0 <= j < k ==> timeOf(meetings[j].date) != timeOf(next.date))
  {
    OrdersArePreorders(timeOf);
    var future, le := FutureMeetings(meetings, now, timeOf), Earlier(timeOf);
    var sorted := Collections.SortBy(future, le);
    var next := sorted[0];
    var tied := Collections.Tied(le, next);
    Collections.SortByStable(future, le);
    assert Collections.Filter(sorted, tied) == Collections.Filter(future, tied);
    Collections.FilterUnfold(sorted, tied);
    assert next in future;
    var atNext := (m: Meeting) => timeOf(m.date) >= now && timeOf(m.date) == timeOf(next.date);
    Collections.FilterFilter(meetings, IsFuture(now, timeOf), tied, atNext);
    var k := Collections.FilterFirst(meetings, atNext);
    assert meetings[k] == next;
  }

  function Times(meetings: seq<Meeting>, timeOf: string -> int): (times: seq<int>)
    ensures |times| == |meetings| && forall i :: 0 <= i < |meetings| ==> times[i] == timeOf(meetings[i].date)
  {
    if meetings == [] then [] else [timeOf(meetings[0].date)] + Times(meetings[1..], timeOf)
  }

  function Descending(): (int, int) -> bool
  {
    (a: int, b: int) => a >= b
  }

  /** `t` is the time of the latest meeting before now. */
  predicate LatestPast(meetings: seq<Meeting>, now: int, timeOf: string -> int, t: int)
  {
    (exists m :: m in meetings && timeOf(m.date) == t && t < now)
    && forall m :: m in meetings && timeOf(m.date) < now ==> timeOf(m.date) <= t
  }

  /** `t` is the time of the latest meeting before now, and `days` whole days have passed since. */
  predicate ElapsedSince(meetings: seq<Meeting>, now: int, timeOf: string -> int, t: int, days: int)
  {
    LatestPast(meetings, now, timeOf, t) && days * Calendar.DAY_MS <= now - t < (days + 1) * Calendar.DAY_MS
  }

  /** `daysSinceLastMeeting()`: `null` without a past meeting, otherwise the whole days elapsed since the
      latest one, rounded down. */
  function DaysSinceLastMeeting(meetings: seq<Meeting>, now: int, timeOf: string -> int): (days: Option<int>)
    ensures days.None? <==> forall m :: m in meetings ==> timeOf(m.date) >= now
    ensures days.Some? ==> days.value >= 0
    ensures days.Some? ==> exists t :: ElapsedSince(meetings, now, timeOf, t, days.value)
  {
    var past := PastMeetings(meetings, now, timeOf);
    if past == [] then None
    else
      var times := Times(past, timeOf);
      var latest := Collections.SortBy(times, Descending());
      Collections.SortedHeadIsLeast(times, Descending());
      var t := latest[0];
      var k :| 0 <= k < |times| && times[k] == t;
      assert past[k] in meetings && timeOf(past[k].date) == t;
      forall m | m in meetings && timeOf(m.date) < now ensures timeOf(m.date) <= t {
        assert m in past;
        var j :| 0 <= j < |past| && past[j] == m;
        assert times[j] in times;
      }
      assert ElapsedSince(meetings, now, timeOf, t, (now - t) / Calendar.DAY_MS);
      Some((now - t) / Calendar.DAY_MS)
  }

  // ---------------------------------------------------------------------------
  // Days until the birthday
  // ---------------------------------------------------------------------------

  /** The month (1 to 12) and day of a parsed birthday, any day some year's calendar has. */
  type MonthDay = p: (int, int) | 1 <= p.0 <= 12 && 1 <= p.1 <= Calendar.DaysInMonth(2000, p.0) witness (1, 1)

  /** `new Date(year, month - 1, day)`: the 29th of February of a common year is the first of March. */
  function InYear(year: int, md: MonthDay): (r: MonthDay)
    ensures Calendar.DaysFromCivil(year, r.0, r.1) == Calendar.DaysFromCivil(year, md.0, md.1)
    ensures r.1 <= Calendar.DaysInMonth(year, r.0)
  {
    if md == (2, 29) && !Calendar.IsLeap(year) then
      Calendar.FebruaryRollover(year);
      (3, 1)
    else md
  }

  /** `daysUntilBirthday()` as written: the birthday this year is taken at midnight and compared with the
      current instant, so once the day has begun the birthday counts as past and moves a year on, and the
      millisecond difference is then rounded down. `monthDayOf` stands for reading the month and the day
      of `new Date(birthday)`. */
  function DaysUntilBirthdayAsWritten(birthday: Option<string>, today: Calendar.DateTime,
                                      monthDayOf: string -> MonthDay): (days: Option<int>)
    requires today.Valid()
    ensures days.None? <==> birthday.None? || birthday.value == ""
  {
    if birthday.None? || birthday.value == "" then None
    else
      var md := InYear(today.year, monthDayOf(birthday.value));
      Some(MidnightCountdown(Calendar.DaysFromCivil(today.year, md.0, md.1),
                             Calendar.DaysFromCivil(today.year + 1, md.0, md.1), Calendar.TimeOf(today)))
  }

  /** The countdown as written, on day numbers: the birthday's midnight this year counts as past once it
      is before the clock `now`, in which case next year's midnight is the target; the millisecond
      difference is then rounded down. */
  function MidnightCountdown(thisDay: int, nextDay: int, now: int): int
  {
    var thisYear := thisDay * Calendar.DAY_MS;
    var target := if thisYear < now then nextDay * Calendar.DAY_MS else thisYear;
    (target - now) / Calendar.DAY_MS
  }

  /** The day number of the birthday in the year of `today`. */
  function BirthdayThisYear(md: MonthDay, today: Calendar.DateTime): int
    requires today.Valid()
  {
    var d := InYear(today.year, md);
    Calendar.DaysFromCivil(today.year, d.0, d.1)
  }

  /** `daysUntilBirthday()` as intended: whole calendar days from today to the next birthday, 0 on the
      birthday itself. */
  function DaysUntilBirthday(birthday: Option<string>, today: Calendar.DateTime,
                             monthDayOf: string -> MonthDay): (days: Option<int>)
    requires today.Valid()
    ensures days.None? <==> birthday.None? || birthday.value == ""
    ensures days.Some? ==> 0 <= days.value <= 365
    ensures days.Some? ==>
      (days.value == 0 <==> BirthdayThisYear(monthDayOf(birthday.value), today) == Calendar.DayNumber(today))
  {
    if birthday.None? || birthday.value == "" then None
    else Some(NextBirthdayIn(today, InYear(today.year, monthDayOf(birthday.value))))
  }

  /** Whole days from `today` to the next `md`: this year's, or next year's once this year's has passed. */
  function NextBirthdayIn(today: Calendar.DateTime, md: MonthDay): (days: int)
    requires today.Valid() && md.1 <= Calendar.DaysInMonth(today.year, md.0)
    ensures 0 <= days <= 365
    ensures days == 0 <==> Calendar.DaysFromCivil(today.year, md.0, md.1) == Calendar.DayNumber(today)
  {
    var thisDay := Calendar.DaysFromCivil(today.year, md.0, md.1);
    var todayDay := Calendar.DayNumber(today);
    if thisDay < todayDay then
      BirthdayPassed(today, md);
      Calendar.DaysFromCivil(today.year + 1, md.0, md.1) - todayDay
    else
      BirthdayAhead(today, md);
      thisDay - todayDay
  }

  /** A birthday already past this year falls 1 to 365 days ahead next year. */
  lemma BirthdayPassed(today: Calendar.DateTime, md: MonthDay)
    requires today.Valid() && md.1 <= Calendar.DaysInMonth(today.year, md.0)
    requires Calendar.DaysFromCivil(today.year, md.0, md.1) < Calendar.DayNumber(today)
    ensures 0 < Calendar.DaysFromCivil(today.year + 1, md.0, md.1) - Calendar.DayNumber(today) <= 365
  {
    Calendar.YearLength(today.year, md.0, md.1);
    Calendar.YearEnd(today.year, today.month, today.day);
    Calendar.YearStart(today.year + 1, md.0, md.1);
  }

  /** A birthday still ahead this year is at most 365 days ahead. */
  lemma BirthdayAhead(today: Calendar.DateTime, md: MonthDay)
    requires today.Valid() && md.1 <= Calendar.DaysInMonth(today.year, md.0)
    ensures Calendar.DaysFromCivil(today.year, md.0, md.1) - Calendar.DayNumber(today) <= 365
  {
    Calendar.YearStart(today.year, today.month, today.day);
    Calendar.YearEnd(today.year, md.0, md.1);
    Calendar.YearLength(today.year, 1, 1);
  }

  /** Rounding down a whole number of days less a part of one. */
  lemma FloorLessPart(k: int, ms: int)
    requires 0 <= ms < Calendar.DAY_MS
    ensures (k * Calendar.DAY_MS - ms) / Calendar.DAY_MS == if ms == 0 then k else k - 1
  {
    if ms > 0 {
      assert k * Calendar.DAY_MS - ms == (k - 1) * Calendar.DAY_MS + (Calendar.DAY_MS - ms);
    }
  }

  /** At midnight the two agree; at any later moment of a day that is not the birthday, the code as
      written reports one day fewer than there are. */
  lemma {:induction false} AsWrittenOneDayShort(birthday: Option<string>, today: Calendar.DateTime,
                                                monthDayOf: string -> MonthDay)
    requires today.Valid()
    ensures today.msOfDay == 0 ==>
      DaysUntilBirthdayAsWritten(birthday, today, monthDayOf) == DaysUntilBirthday(birthday, today, monthDayOf)
    ensures (today.msOfDay > 0 && birthday.Some? && birthday.value != "" &&
             BirthdayThisYear(monthDayOf(birthday.value), today) != Calendar.DayNumber(today)) ==>
      DaysUntilBirthdayAsWritten(birthday, today, monthDayOf).value
        == DaysUntilBirthday(birthday, today, monthDayOf).value - 1
  {
    if birthday.Some? && birthday.value != "" {
      CountdownAgainstDays(today, InYear(today.year, monthDayOf(birthday.value)));
    }
  }

  /** The comparison for one month and day in the year of `today`. */
  lemma CountdownAgainstDays(today: Calendar.DateTime, md: MonthDay)
    requires today.Valid() && md.1 <= Calendar.DaysInMonth(today.year, md.0)
    ensures var asWritten := MidnightCountdown(Calendar.DaysFromCivil(today.year, md.0, md.1),
                                               Calendar.DaysFromCivil(today.year + 1, md.0, md.1),
                                               Calendar.TimeOf(today));
      && (today.msOfDay == 0 ==> asWritten == NextBirthdayIn(today, md))
      && (today.msOfDay > 0 && Calendar.DaysFromCivil(today.year, md.0, md.1) != Calendar.DayNumber(today)
          ==> asWritten == NextBirthdayIn(today, md) - 1)
  {
    var thisDay := Calendar.DaysFromCivil(today.year, md.0, md.1);
    var nextDay := Calendar.DaysFromCivil(today.year + 1, md.0, md.1);
    var todayDay := Calendar.DayNumber(today);
    assert Calendar.TimeOf(today) == todayDay * Calendar.DAY_MS + today.msOfDay;
    assert NextBirthdayIn(today, md) == (if thisDay < todayDay then nextDay else thisDay) - todayDay;
    MillisecondDays(thisDay, nextDay, todayDay, today.msOfDay);
  }

  /** The countdown as written against whole days: with the clock `ms` into day `todayDay`, it agrees at
      midnight and is one short later in the day, unless the birthday is today. */
  lemma MillisecondDays(thisDay: int, nextDay: int, todayDay: int, ms: int)
    requires 0 <= ms < Calendar.DAY_MS
    ensures var intended := (if thisDay < todayDay then nextDay else thisDay) - todayDay;
      var asWritten := MidnightCountdown(thisDay, nextDay, todayDay * Calendar.DAY_MS + ms);
      && (ms == 0 ==> asWritten == intended)
      && (ms > 0 && thisDay != todayDay ==> asWritten == intended - 1)
  {
    var now := todayDay * Calendar.DAY_MS + ms;
    assert thisDay * Calendar.DAY_MS < now <==> (if ms == 0 then thisDay < todayDay else thisDay <= todayDay);
    var targetDay := if ms == 0 then (if thisDay < todayDay then nextDay else thisDay)
                     else (if thisDay <= todayDay then nextDay else thisDay);
    assert targetDay * Calendar.DAY_MS - now == (targetDay - todayDay) * Calendar.DAY_MS - ms;
    FloorLessPart(targetDay - todayDay, ms);
  }

  /** On 15 March 2025 at 10:00 the code as written puts a 15 March birthday 364 days away and a
      16 March birthday 0 days away; as intended they are 0 and 1 days away. */
  lemma BirthdayCounterexample(monthDayOf: string -> MonthDay)
    requires monthDayOf("2000-03-15") == (3, 15) && monthDayOf("2000-03-16") == (3, 16)
    ensures var today := Calendar.DateTime(2025, 3, 15, 36000000);
      && DaysUntilBirthdayAsWritten(Some("2000-03-15"), today, monthDayOf) == Some(364)
      && DaysUntilBirthday(Some("2000-03-15"), today, monthDayOf) == Some(0)
      && DaysUntilBirthdayAsWritten(Some("2000-03-16"), today, monthDayOf) == Some(0)
      && DaysUntilBirthday(Some("2000-03-16"), today, monthDayOf) == Some(1)
  {
    var today := Calendar.DateTime(2025, 3, 15, 36000000);
    assert Calendar.MarchDays(2025) == 739616 && Calendar.MarchDays(2026) == 739981;
    assert Calendar.DayNumber(today) == 20162;
    assert Calendar.DaysFromCivil(2025, 3, 16) == 20163;
    assert Calendar.DaysFromCivil(2026, 3, 15) == 20527;
  }
}
