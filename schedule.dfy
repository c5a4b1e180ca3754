/** Transit timetables (Assets/Scripts/Transit/Schedule.cs): the `Weekday` flag
    set, the day and night service windows of a line, and the departures they
    produce. Hours are `int`s from 0 to 24, intervals are minutes. */
module Schedule {
  import opened CSharpInt
  import opened DateTimes
  import opened Units
  import opened TransitTypes
  import opened Wrappers

  /** The `[Flags] enum Weekday`, as the `int` behind it. */
  const WeekdayNone: int := 0x0
  const Sunday: int := 0x1
  const Monday: int := 0x2
  const Tuesday: int := 0x4
  const Wednesday: int := 0x8
  const Thursday: int := 0x10
  const Friday: int := 0x20
  const Saturday: int := 0x40
  /** `Saturday | Sunday`; the two bits are different, so `|` is `+`. */
  const Weekends: int := Saturday + Sunday
  /** `~None`: every bit set. */
  const WeekdayAll: int := -1
  /** `~Weekends`. */
  const Weekdays: int := -1 - Weekends

  /** `(Weekday)(1 << (int)day)` for a `DayOfWeek` value (Sunday = 0). */
  function DayFlag(day: int): int
    requires 0 <= day < 7
  {
    if day == 0 then Sunday
    else if day == 1 then Monday
    else if day == 2 then Tuesday
    else if day == 3 then Wednesday
    else if day == 4 then Thursday
    else if day == 5 then Friday
    else Saturday
  }

  /** `flags.HasFlag(DayFlag(day))`: for a one-bit flag, whether that bit is set
      in the two's-complement value. Dividing by the flag rounds toward minus
      infinity, as an arithmetic shift does. */
  predicate HasDay(flags: int, day: int)
    requires 0 <= day < 7
  {
    var shifted :=
      if day == 0 then flags
      else if day == 1 then flags / 0x2
      else if day == 2 then flags / 0x4
      else if day == 3 then flags / 0x8
      else if day == 4 then flags / 0x10
      else if day == 5 then flags / 0x20
      else flags / 0x40;
    shifted % 2 == 1
  }

  /** Each day flag is a single bit of its own. */
  lemma DayFlagsDistinct(d: int, e: int)
    requires 0 <= d < 7 && 0 <= e < 7
    ensures HasDay(DayFlag(d), e) <==> d == e
  {
    if e == 0 {
    } else if e == 1 {
    } else if e == 2 {
    } else if e == 3 {
    } else if e == 4 {
    } else if e == 5 {
    } else {
    }
  }

  /** The named sets: `Weekends` is Saturday and Sunday, `Weekdays` Monday to
      Friday, `All` every day and `None` no day. */
  lemma NamedWeekdaySets(e: int)
    requires 0 <= e < 7
    ensures HasDay(Weekends, e) <==> (e == 0 || e == 6)
    ensures HasDay(Weekdays, e) <==> 1 <= e <= 5
    ensures HasDay(WeekdayAll, e) && !HasDay(WeekdayNone, e)
  {
    if e == 0 {
    } else if e == 1 {
    } else if e == 2 {
    } else if e == 3 {
    } else if e == 4 {
    } else if e == 5 {
    } else {
    }
  }

  /** `IsBetween(hour, range)`. */
  predicate IsBetween(hour: int, range: (int, int))
  {
    if range.1 > range.0 then range.1 > hour && range.0 <= hour
    else !(range.0 > hour && range.1 <= hour)
  }

  /** A range is the half-open interval [start, end) when end is later, and
      otherwise wraps past midnight. Read on a 24-hour clock, it is the
      circular interval from start to end, and a range whose ends coincide
      covers the whole day. */
  lemma IsBetweenShape(hour: int, start: int, end: int)
    ensures end > start ==> (IsBetween(hour, (start, end)) <==> start <= hour < end)
    ensures end <= start ==> (IsBetween(hour, (start, end)) <==> hour >= start || hour < end)
    ensures 0 <= hour < 24 && 0 <= start < 24 && 0 <= end <= 24 ==>
      (IsBetween(hour, (start, end)) <==>
        start == end % 24 || (hour - start) % 24 < (end - start) % 24)
  {
    if 0 <= hour < 24 && 0 <= start < 24 && 0 <= end <= 24 {
      if hour >= start {
        assert (hour - start) % 24 == hour - start;
      } else {
        assert (hour - start) % 24 == hour - start + 24;
      }
      if end >= start {
        assert end == 24 || (end - start) % 24 == end - start;
      } else {
        assert (end - start) % 24 == end - start + 24;
      }
    }
  }

  /** Which timetable applies at a moment. */
  datatype ActiveSchedule = NoSchedule | Day | Night

  /** A line timetable: the day and night windows, the operating days and the
      departure intervals in minutes. */
  datatype Schedule = Schedule(dayHours: (int, int), nightHours: (int, int),
                               operatingDays: int, dayInterval: int, nightInterval: int)

  /** The `operatingHours` property: from the start of the day to the end of the
      night. */
  function OperatingHours(s: Schedule): (int, int)
  {
    (s.dayHours.0, s.nightHours.1)
  }

  /** What `GetNextDeparture` needs: intervals to divide by, and at least one
      operating day for its search to stop at. */
  ghost predicate Valid(s: Schedule)
  {
    s.dayInterval > 0 && s.nightInterval > 0
    && exists d :: 0 <= d < 7 && HasDay(s.operatingDays, d)
  }

  /** `GetDefaultSchedule`: the table for the first five transit systems. The
      table has no entry for light rail, where the source indexes past its end. */
  function GetDefaultSchedule(t: TransitType): Option<Schedule>
  {
    match t
    case Bus => Some(Schedule((4, 22), (22, 1), WeekdayAll, 20, 30))
    case Tram => Some(Schedule((4, 22), (22, 1), WeekdayAll, 20, 30))
    case Subway => Some(Schedule((4, 22), (22, 1), WeekdayAll, 5, 15))
    case IntercityRail => Some(Schedule((4, 22), (22, 24), WeekdayAll, 30, 60))
    case Ferry => Some(Schedule((4, 22), (22, 22), WeekdayAll, 20, 30))
    case LightRail => None
  }

  function GetScheduleAtTime(s: Schedule, t: DateTime): ActiveSchedule
  {
    if !HasDay(s.operatingDays, DayOfWeek(t)) then NoSchedule
    else if !IsBetween(Hour(t), OperatingHours(s)) then NoSchedule
    else if IsBetween(Hour(t), s.nightHours) then Night
    else Day
  }

  /** No timetable applies on a day the line does not run or outside its
      operating hours; inside them the night hours take the night timetable and
      the rest the day timetable. */
  lemma ScheduleAtTimeCases(s: Schedule, t: DateTime)
    ensures GetScheduleAtTime(s, t) == NoSchedule <==>
      !HasDay(s.operatingDays, DayOfWeek(t)) || !IsBetween(Hour(t), OperatingHours(s))
    ensures GetScheduleAtTime(s, t) == Night <==>
      HasDay(s.operatingDays, DayOfWeek(t)) && IsBetween(Hour(t), OperatingHours(s))
      && IsBetween(Hour(t), s.nightHours)
    ensures GetScheduleAtTime(s, t) == Day <==>
      HasDay(s.operatingDays, DayOfWeek(t)) && IsBetween(Hour(t), OperatingHours(s))
      && !IsBetween(Hour(t), s.nightHours)
  {
  }

  /** The default timetables hour by hour: buses, trams and subways run the day
      timetable from 4 to 22 and the night one until 1, rail stops at midnight,
      and the ferry, whose night window has equal ends, is on its night timetable
      for all of its operating hours. Light rail has no default. */
  lemma DefaultScheduleHours(tt: TransitType, t: DateTime)
    ensures tt == LightRail <==> GetDefaultSchedule(tt) == None
    ensures tt in {Bus, Tram, Subway} ==>
      GetScheduleAtTime(GetDefaultSchedule(tt).value, t) ==
        (if 1 <= Hour(t) < 4 then NoSchedule else if Hour(t) >= 22 || Hour(t) == 0 then Night else Day)
    ensures tt == IntercityRail ==>
      GetScheduleAtTime(GetDefaultSchedule(tt).value, t) ==
        (if Hour(t) < 4 then NoSchedule else if Hour(t) >= 22 then Night else Day)
    ensures tt == Ferry ==>
      GetScheduleAtTime(GetDefaultSchedule(tt).value, t) ==
        (if 4 <= Hour(t) < 22 then Night else NoSchedule)
    ensures tt != LightRail ==> Valid(GetDefaultSchedule(tt).value)
  {
    NamedWeekdaySets(DayOfWeek(t));
    NamedWeekdaySets(0);
  }

  /** `GetNextDate` as written: it moves forward by |hour - current hour| hours,
      which is the distance to the target hour only when the target is later in
      the day, and then by |day - current weekday| days, which is the distance
      to the target weekday only when it is later in the week. */
  function GetNextDateAsWritten(t: DateTime, hour: int, day: Option<int>): DateTime
  {
    var moved := AddHours(t, Abs(hour - Hour(t)) % 24);
    var newDate := AddMinutes(moved, -Minute(moved));
    if day.None? then newDate else AddDays(newDate, Abs(day.value - DayOfWeek(newDate)) % 7)
  }

  /** At 23:00, the next 4 o'clock comes out as 18:00 the following day. */
  lemma GetNextDateWrongHour()
    ensures Hour(23 * SecondsPerHour) == 23
    ensures Hour(GetNextDateAsWritten(23 * SecondsPerHour, 4, None)) == 18
  {
  }

  /** The weekday step has the same defect: from Saturday 03:00, the next
      Monday at 4 o'clock comes out as Thursday, |Monday - Saturday| = 5 days
      after Saturday, while counting forward gives Monday. */
  lemma GetNextDateWrongDay()
    ensures var t := 5 * SecondsPerDay + 3 * SecondsPerHour;
      DayOfWeek(t) == 6 && Hour(t) == 3
      && Hour(GetNextDateAsWritten(t, 4, Some(1))) == 4
      && DayOfWeek(GetNextDateAsWritten(t, 4, Some(1))) == 4
      && Hour(GetNextDate(t, 4, Some(1))) == 4
      && DayOfWeek(GetNextDate(t, 4, Some(1))) == 1
  {
  }

  /** `GetNextDate` counting forward on the clock and on the week (both
      corrected): the next time the clock shows `hour` (the current hour
      counts), at the full hour, and then the next `day` at that time. */
  function GetNextDate(t: DateTime, hour: int, day: Option<int>): DateTime
  {
    var moved := AddHours(t, (hour - Hour(t)) % 24);
    var newDate := AddMinutes(moved, -Minute(moved));
    if day.None? then newDate else AddDays(newDate, (day.value - DayOfWeek(newDate)) % 7)
  }

  /** The date found shows the hour asked for at minute 0, falls on the weekday
      asked for, starts no earlier than the current hour and lies less than a day
      (or, with a weekday, a week) ahead. */
  lemma GetNextDateHits(t: DateTime, hour: int, day: Option<int>)
    requires 0 <= hour < 24
    requires day.Some? ==> 0 <= day.value < 7
    ensures var r := GetNextDate(t, hour, day);
      Hour(r) == hour && Minute(r) == 0 && Second(r) == Second(t)
      && (day.Some? ==> DayOfWeek(r) == day.value)
      && t - Minute(t) * SecondsPerMinute <= r
      && r < t + (if day.Some? then 7 else 1) * SecondsPerDay
  {
    var newDate := GetNextDate(t, hour, None);
    NextHourFields(t, hour);
    if day.Some? {
      var dd := (day.value - DayOfWeek(newDate)) % 7;
      assert 0 <= dd < 7;
      AddDaysFields(newDate, dd);
      assert GetNextDate(t, hour, day) == newDate + dd * SecondsPerDay;
    }
  }

  /** The hour step of `GetNextDate`. */
  lemma NextHourFields(t: DateTime, hour: int)
    requires 0 <= hour < 24
    ensures var r := GetNextDate(t, hour, None);
      Hour(r) == hour && Minute(r) == 0 && Second(r) == Second(t)
      && t - Minute(t) * SecondsPerMinute <= r < t + SecondsPerDay
  {
    var k := (hour - Hour(t)) % 24;
    AddHoursFields(t, k);
    assert (Hour(t) + k) % 24 == hour;
    FullHourFields(AddHours(t, k));
  }

  /** Moving forward by less than a day turns the clock by that many hours. */
  lemma AddHoursFields(t: DateTime, k: int)
    requires 0 <= k < 24
    ensures Hour(AddHours(t, k)) == (Hour(t) + k) % 24
    ensures Minute(AddHours(t, k)) == Minute(t) && Second(AddHours(t, k)) == Second(t)
  {
    TimeOfDay(t);
    if Hour(t) + k < 24 {
      FieldsOf(Date(t), Hour(t) + k, Minute(t), Second(t));
    } else {
      FieldsOf(Date(t) + SecondsPerDay, Hour(t) + k - 24, Minute(t), Second(t));
    }
  }

  /** Going back to the full hour keeps the hour and the second. */
  lemma FullHourFields(t: DateTime)
    ensures var r := AddMinutes(t, -Minute(t));
      Hour(r) == Hour(t) && Minute(r) == 0 && Second(r) == Second(t)
  {
    TimeOfDay(t);
    FieldsOf(Date(t), Hour(t), 0, Second(t));
  }

  /** The weekday `k` days after `start`. */
  function DayAt(start: int, k: int): (d: int)
    ensures 0 <= d < 7
  {
    (start + k) % 7
  }

  /** The first offset from `k` on at which the week starting on `start` has an
      operating day; 7 when there is none. */
  function FirstOffset(flags: int, start: int, k: nat): (r: nat)
    requires 0 <= start < 7 && k <= 7
    ensures k <= r <= 7
    decreases 7 - k
  {
    if k == 7 then 7
    else if HasDay(flags, DayAt(start, k)) then k
    else FirstOffset(flags, start, k + 1)
  }

  /** With an operating day at offset `j0`, the search from `k` stops at an
      operating day no later than that. */
  lemma {:induction false} FirstOffsetFinds(flags: int, start: int, k: nat, j0: nat)
    requires 0 <= start < 7 && k <= j0 < 7
    requires HasDay(flags, DayAt(start, j0))
    ensures FirstOffset(flags, start, k) <= j0
    ensures HasDay(flags, DayAt(start, FirstOffset(flags, start, k)))
    decreases 7 - k
  {
    if !HasDay(flags, DayAt(start, k)) {
      FirstOffsetFinds(flags, start, k + 1, j0);
    }
  }

  /** The search offset of every day of the week leads back to that day. */
  lemma DayAtOffset(start: int, e: int)
    requires 0 <= start < 7 && 0 <= e < 7
    ensures 0 <= (e - start) % 7 < 7 && DayAt(start, (e - start) % 7) == e
  {
  }

  /** A day later is the next weekday. */
  lemma DayAtStep(start: int, k: int)
    requires 0 <= start < 7
    ensures DayAt(start, k + 1) == (DayAt(start, k) + 1) % 7
    ensures DayAt(start, 0) == start
  {
    ModMultiple(start + k + 1, (start + k) / 7, (start + k) % 7 + 1, 7);
  }

  /** The loop of `GetNextDeparture` that steps from `day` to the next operating
      day. */
  method NextOperatingDay(flags: int, day: int) returns (r: int)
    requires 0 <= day < 7
    requires exists e :: 0 <= e < 7 && HasDay(flags, e)
    ensures 0 <= r < 7 && r == DayAt(day, FirstOffset(flags, day, 0))
    ensures HasDay(flags, r)
  {
    var e :| 0 <= e < 7 && HasDay(flags, e);
    DayAtOffset(day, e);
    FirstOffsetFinds(flags, day, 0, (e - day) % 7);
    ghost var first := FirstOffset(flags, day, 0);
    ghost var k: nat := 0;
    r := day;
    DayAtStep(day, -1);
    while !HasDay(flags, r)
      invariant 0 <= r < 7 && k <= first < 7
      invariant r == DayAt(day, k)
      invariant FirstOffset(flags, day, k) == first
      decreases 7 - k
    {
      r := (r + 1) % 7;
      k := k + 1;
      DayAtStep(day, k - 1);
    }
  }

  /** The number of minutes into its window at which a timetable window ends:
      the start hour plus as many whole intervals as the window needs. */
  function DayEndMinute(s: Schedule): int
    requires s.dayInterval > 0
  {
    var dayDuration := Abs(s.dayHours.1 - s.dayHours.0) * 60;
    var dayTrips := CeilDiv(dayDuration, s.dayInterval);
    s.dayHours.0 * 60 + dayTrips * s.dayInterval
  }

  /** The departure `GetNextDeparture` computes, with `GetNextDate` counting
      forward on the clock. */
  ghost function NextDeparture(s: Schedule, t: DateTime): DateTime
    requires Valid(s)
  {
    var start := DayOfWeek(t);
    if !HasDay(s.operatingDays, start) then
      GetNextDate(t, OperatingHours(s).0, Some(DayAt(start, FirstOffset(s.operatingDays, start, 0))))
    else if !IsBetween(Hour(t), OperatingHours(s)) then
      GetNextDate(t, OperatingHours(s).0, None)
    else
      var nextDep :=
        if IsBetween(Hour(t), s.nightHours) then
          AddMinutes(t, TruncRem(DayEndMinute(s), s.nightInterval))
        else
          AddMinutes(t, s.dayInterval - TruncRem(MinuteOfDay(t) - s.dayHours.0 * 60, s.dayInterval));
      if !IsBetween(Hour(nextDep), OperatingHours(s)) then GetNextDate(t, OperatingHours(s).0, None)
      else nextDep
  }

  /** `Schedule.GetNextDeparture`: the search for the next operating day, then
      the day and night timetables, falling back to the next opening time. */
  method GetNextDeparture(s: Schedule, currentTime: DateTime) returns (d: DateTime)
    requires Valid(s)
    ensures d == NextDeparture(s, currentTime)
  {
    var day := DayOfWeek(currentTime);
    if !HasDay(s.operatingDays, day) {
      day := NextOperatingDay(s.operatingDays, day);
      d := GetNextDate(currentTime, OperatingHours(s).0, Some(day));
      return;
    }

    var hour := Hour(currentTime);
    if !IsBetween(hour, OperatingHours(s)) {
      d := GetNextDate(currentTime, OperatingHours(s).0, None);
      return;
    }

    var nextDep;
    if IsBetween(hour, s.nightHours) {
      var dayDuration := Abs(s.dayHours.1 - s.dayHours.0) * 60;
      var dayTrips := CeilDiv(dayDuration, s.dayInterval);
      var dayEndMinute := s.dayHours.0 * 60 + dayTrips * s.dayInterval;
      var nextDepartureMins := TruncRem(dayEndMinute, s.nightInterval);
      nextDep := AddMinutes(currentTime, nextDepartureMins);
    } else {
      var nextDepartureMins := TruncRem((Minute(currentTime) + Hour(currentTime) * 60) - s.dayHours.0 * 60, s.dayInterval);
      nextDep := AddMinutes(currentTime, s.dayInterval - nextDepartureMins);
    }

    if !IsBetween(Hour(nextDep), OperatingHours(s)) {
      d := GetNextDate(currentTime, OperatingHours(s).0, None);
      return;
    }
    d := nextDep;
  }

  /** Whether a moment lies on the day timetable's grid: a whole number of
      intervals after the start of the day window of the day beginning at
      `midnight`. */
  predicate OnDayGrid(s: Schedule, r: DateTime, midnight: DateTime)
    requires s.dayInterval > 0
  {
    ((r - midnight) / SecondsPerMinute - s.dayHours.0 * 60) % s.dayInterval == 0
  }

  /** On the day timetable the next departure is the next grid minute, strictly
      later and at most one interval away, unless that minute is past the
      operating hours, in which case it is the next opening time. */
  lemma DayDeparture(s: Schedule, t: DateTime)
    requires Valid(s)
    requires HasDay(s.operatingDays, DayOfWeek(t)) && IsBetween(Hour(t), OperatingHours(s))
    requires !IsBetween(Hour(t), s.nightHours)
    requires MinuteOfDay(t) >= s.dayHours.0 * 60
    ensures var r := NextDeparture(s, t);
      (t < r <= t + s.dayInterval * SecondsPerMinute && OnDayGrid(s, r, Date(t)))
      || r == GetNextDate(t, OperatingHours(s).0, None)
  {
    var I := s.dayInterval;
    var x := MinuteOfDay(t) - s.dayHours.0 * 60;
    var r0 := x % I;
    var nd := AddMinutes(t, I - r0);
    TimeOfDay(t);
    assert nd - Date(t) == (MinuteOfDay(t) + I - r0) * SecondsPerMinute + Second(t);
    DivExact(MinuteOfDay(t) + I - r0, SecondsPerMinute);
    assert (nd - Date(t)) / SecondsPerMinute == MinuteOfDay(t) + I - r0;
    assert x == (x / I) * I + r0;
    assert x + I - r0 == (x / I + 1) * I;
    DivExact(x / I + 1, I);
  }

  /** The departure search of a timetable, as a function value. */
  ghost function NextFrom(s: Schedule): DateTime -> DateTime
    requires Valid(s)
  {
    u => NextDeparture(s, u)
  }

  /** The departures `NextDepartures` lists for a search `next`: each one the
      next departure after the previous one plus a minute. */
  ghost function Departures(next: DateTime -> DateTime, t: DateTime, amount: nat): (r: seq<DateTime>)
    ensures |r| == amount
    ensures amount > 0 ==> r[0] == next(t)
    decreases amount
  {
    if amount == 0 then []
    else
      var d := next(t);
      [d] + Departures(next, AddMinutes(d, 1), amount - 1)
  }

  /** Every listed departure after the first is the next departure a minute
      after its predecessor. */
  lemma {:induction false} DeparturesChain(next: DateTime -> DateTime, t: DateTime, amount: nat, i: nat)
    requires 0 < i < amount
    ensures Departures(next, t, amount)[i] == next(AddMinutes(Departures(next, t, amount)[i - 1], 1))
    decreases amount
  {
    if i > 1 {
      DeparturesChain(next, AddMinutes(next(t), 1), amount - 1, i - 1);
    }
  }

  /** A longer list starts with the shorter one. */
  lemma {:induction false} DeparturesPrefix(next: DateTime -> DateTime, t: DateTime, n: nat, m: nat)
    requires n <= m
    ensures Departures(next, t, n) == Departures(next, t, m)[..n]
    decreases n
  {
    if n > 0 {
      DeparturesPrefix(next, AddMinutes(next(t), 1), n - 1, m - 1);
    }
  }

  /** `NextDepartures`: `amount` departures, each searched from a minute after
      the one before. */
  method NextDepartures(s: Schedule, currentTime: DateTime, amount: nat) returns (result: array<DateTime>)
    requires Valid(s)
    ensures result.Length == amount
    ensures result[..] == Departures(NextFrom(s), currentTime, amount)
  {
    result := new DateTime[amount];
    ghost var next := NextFrom(s);
    ghost var all := Departures(next, currentTime, amount);
    var t := currentTime;
    for i := 0 to amount
      invariant result[..i] == all[..i]
      invariant i > 0 ==> t == AddMinutes(all[i - 1], 1)
      invariant i == 0 ==> t == currentTime
    {
      var departure := GetNextDeparture(s, t);
      if i > 0 {
        DeparturesChain(next, currentTime, amount, i);
      }
      assert departure == all[i];
      result[i] := departure;
      assert result[..i + 1] == all[..i] + [all[i]];
      t := AddMinutes(departure, 1);
    }
    assert all[..amount] == all;
  }

  /** A timetable that departs every `interval` seconds from `firstDeparture` on. */
  datatype ContinuousSchedule = ContinuousSchedule(firstDeparture: DateTime, interval: TimeSpan)

  /** `ContinuousSchedule.GetNextDeparture`. */
  function ContinuousNextDeparture(c: ContinuousSchedule, currentTime: DateTime): (r: DateTime)
    requires c.interval > 0
    ensures currentTime <= c.firstDeparture ==> r == c.firstDeparture
    ensures currentTime > c.firstDeparture ==> currentTime <= r < currentTime + c.interval
    ensures r >= c.firstDeparture && (r - c.firstDeparture) % c.interval == 0
  {
    if currentTime <= c.firstDeparture then c.firstDeparture
    else
      var diff := currentTime - c.firstDeparture;
      c.firstDeparture + RoundToInterval(diff, c.interval)
  }

  /** The departure returned is the earliest one of the timetable that is not
      before the current time. */
  lemma ContinuousNextIsEarliest(c: ContinuousSchedule, currentTime: DateTime, m: DateTime)
    requires c.interval > 0
    requires m >= currentTime && m >= c.firstDeparture && (m - c.firstDeparture) % c.interval == 0
    ensures ContinuousNextDeparture(c, currentTime) <= m
  {
    if currentTime > c.firstDeparture {
      RoundToIntervalLeast(currentTime - c.firstDeparture, c.interval, m - c.firstDeparture);
    }
  }
}
