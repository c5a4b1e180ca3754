/** The game clock: `System.DateTime` and `TimeSpan` at a resolution of whole
    seconds. A date is the number of seconds since 0001-01-01 00:00:00, which was
    a Monday; `DayOfWeek` numbers Sunday as 0, as .NET does. */
module DateTimes {
  import opened CSharpInt

  type DateTime = int

  /** A time span in seconds. */
  type TimeSpan = int

  const SecondsPerMinute: int := 60
  const SecondsPerHour: int := 3600
  const SecondsPerDay: int := 86400

  /** `DateTime.Hour`. */
  function Hour(t: DateTime): (h: int)
    ensures 0 <= h < 24
  {
    (t % SecondsPerDay) / SecondsPerHour
  }

  /** `DateTime.Minute`. */
  function Minute(t: DateTime): (m: int)
    ensures 0 <= m < 60
  {
    (t % SecondsPerHour) / SecondsPerMinute
  }

  function Second(t: DateTime): (s: int)
    ensures 0 <= s < 60
  {
    t % SecondsPerMinute
  }

  /** `DateTime.Date`: midnight of the same day. */
  function Date(t: DateTime): DateTime
  {
    t - t % SecondsPerDay
  }

  /** `DateTime.DayOfWeek`, with Sunday = 0 through Saturday = 6. */
  function DayOfWeek(t: DateTime): (d: int)
    ensures 0 <= d < 7
  {
    (t / SecondsPerDay + 1) % 7
  }

  /** `MinuteOfDay` (Assets/Scripts/Utility/GameObjectExtensions.cs): the
      minutes since midnight. */
  function MinuteOfDay(t: DateTime): (r: int)
    ensures 0 <= r < 24 * 60
  {
    Hour(t) * 60 + Minute(t)
  }

  /** The minute of the day counts the whole minutes elapsed since the date's
      midnight. */
  lemma MinuteOfDayElapsed(t: DateTime)
    ensures MinuteOfDay(t) * SecondsPerMinute + Second(t) == t - Date(t)
    ensures MinuteOfDay(t) == (t % SecondsPerDay) / SecondsPerMinute
  {
    TimeOfDay(t);
    var r := t % SecondsPerDay;
    assert r == MinuteOfDay(t) * SecondsPerMinute + Second(t);
  }

  function AddMinutes(t: DateTime, minutes: int): DateTime
  {
    t + minutes * SecondsPerMinute
  }

  function AddHours(t: DateTime, hours: int): DateTime
  {
    t + hours * SecondsPerHour
  }

  function AddDays(t: DateTime, days: int): DateTime
  {
    t + days * SecondsPerDay
  }

  /** A date is its midnight plus its hour, minute and second. */
  lemma TimeOfDay(t: DateTime)
    ensures t == Date(t) + Hour(t) * SecondsPerHour + Minute(t) * SecondsPerMinute + Second(t)
    ensures Date(t) % SecondsPerDay == 0
  {
    var r := t % SecondsPerDay;
    assert r == Hour(t) * SecondsPerHour + (r % SecondsPerHour);
    assert r % SecondsPerHour == t % SecondsPerHour by {
      assert SecondsPerDay == 24 * SecondsPerHour;
      assert t == (t / SecondsPerDay) * SecondsPerDay + r;
      assert t == ((t / SecondsPerDay) * 24) * SecondsPerHour + r;
      ModMultiple(t, (t / SecondsPerDay) * 24, r, SecondsPerHour);
    }
    assert t % SecondsPerHour == Minute(t) * SecondsPerMinute + Second(t) by {
      var q := t % SecondsPerHour;
      assert q == (q / SecondsPerMinute) * SecondsPerMinute + q % SecondsPerMinute;
      assert q % SecondsPerMinute == t % SecondsPerMinute by {
        assert t == ((t / SecondsPerHour) * 60) * SecondsPerMinute + q;
        ModMultiple(t, (t / SecondsPerHour) * 60, q, SecondsPerMinute);
      }
    }
  }

  /** A date at time of day `h:m:s` on its midnight has exactly those fields. */
  lemma FieldsOf(day: DateTime, h: int, m: int, s: int)
    requires day % SecondsPerDay == 0
    requires 0 <= h < 24 && 0 <= m < 60 && 0 <= s < 60
    ensures var t := day + h * SecondsPerHour + m * SecondsPerMinute + s;
      Hour(t) == h && Minute(t) == m && Second(t) == s && Date(t) == day
      && DayOfWeek(t) == DayOfWeek(day)
  {
    var t := day + h * SecondsPerHour + m * SecondsPerMinute + s;
    var r := h * SecondsPerHour + m * SecondsPerMinute + s;
    assert 0 <= r < SecondsPerDay;
    assert day == (day / SecondsPerDay) * SecondsPerDay;
    ModMultiple(t, day / SecondsPerDay, r, SecondsPerDay);
    assert t / SecondsPerDay == day / SecondsPerDay;
    assert r % SecondsPerHour == m * SecondsPerMinute + s;
    ModMultiple(t, day / SecondsPerDay * 24 + h, m * SecondsPerMinute + s, SecondsPerHour);
    ModMultiple(t, day / SecondsPerDay * 1440 + h * 60 + m, s, SecondsPerMinute);
  }

  /** Moving by whole days keeps the time of day and advances the weekday. */
  lemma AddDaysFields(t: DateTime, days: int)
    ensures Hour(AddDays(t, days)) == Hour(t) && Minute(AddDays(t, days)) == Minute(t)
    ensures Second(AddDays(t, days)) == Second(t)
    ensures DayOfWeek(AddDays(t, days)) == (DayOfWeek(t) + days) % 7
  {
    var u := AddDays(t, days);
    var r := t % SecondsPerDay;
    assert t == (t / SecondsPerDay) * SecondsPerDay + r;
    assert u == (t / SecondsPerDay + days) * SecondsPerDay + r;
    ModMultiple(u, t / SecondsPerDay + days, r, SecondsPerDay);
    assert u / SecondsPerDay == t / SecondsPerDay + days;
    ModMultiple(u, (t / SecondsPerDay + days) * 24, r, SecondsPerHour);
    ModMultiple(t, (t / SecondsPerDay) * 24, r, SecondsPerHour);
    ModMultiple(u, (t / SecondsPerDay + days) * 1440, r, SecondsPerMinute);
    ModMultiple(t, (t / SecondsPerDay) * 1440, r, SecondsPerMinute);
    var a := t / SecondsPerDay + 1;
    ModMultiple(a + days, a / 7, a % 7 + days, 7);
  }
}
