/** A citizen's daily schedule (Assets/Scripts/Simulation/CitizenSchedule.cs):
    the event types and their hourly effects, the fixed events of the week
    with their departure and end times, and the leisurely events that fill
    the gaps between them. The citizen's energy and remaining work, the
    destinations chosen on the map, the travel time to them and the random
    draws are parameters. */
module CitizenSchedules {
  import opened Wrappers
  import DT = DateTimes
  import W = Schedule
  import Ext = Extensions
  import Buildings
  import CSharpInt

  datatype EventType = Work | Leisure | Exercise | GroceryShopping | Relaxation | Sleep

  /** A fixed event: its start and duration in minutes of the day, and the
      `Weekday` flags of the days it takes place on. */
  datatype FixedEvent = FixedEvent(eventType: EventType, startingTime: int, duration: int,
                                   mustBePerformedFully: bool, weekdays: int)

  /** `FixedEvent.endTime` (line 44), in minutes of the day. */
  function EndTime(e: FixedEvent): int
  {
    e.startingTime + e.duration
  }

  /** `EventInfo`: the path is represented by its duration, a location by
      the identifier of the map object. */
  datatype EventInfo = EventInfo(departure: DT.DateTime, endTime: DT.DateTime,
                                 path: Option<DT.TimeSpan>, eventType: EventType,
                                 location: Option<int>)

  const Int32MaxValue: int := 0x7fff_ffff

  function Min(a: int, b: int): (r: int)
    ensures r <= a && r <= b && (r == a || r == b)
  {
    if a <= b then a else b
  }

  // ---------------------------------------------------------------------
  // The hourly effects of an event (lines 85-159)

  function HappinessBonusPerHour(t: EventType): real
  {
    match t
    case Work | GroceryShopping => 0.0
    case Exercise => 1.0
    case Leisure => 2.0
    case Relaxation => 0.5
    case Sleep => 0.1
  }

  function HappinessPenaltyPerHourMissed(t: EventType): real
  {
    match t
    case Sleep => 0.1
    case Work => 1.0
    case GroceryShopping => 5.0
    case _ => 0.0
  }

  /** `PenaltyForMissing`: the hourly penalty times the hours from departure
      to the end, plus those of the path. */
  function PenaltyForMissing(info: EventInfo): real
  {
    var pathDuration := if info.path.Some? then info.path.value else 0;
    HappinessPenaltyPerHourMissed(info.eventType)
      * ((info.endTime - info.departure + pathDuration) as real / DT.SecondsPerHour as real)
  }

  function RemainingWorkBonusPerHour(t: EventType): real
  {
    if t == Work then -(100.0 / 8.0) else 100.0 / 16.0
  }

  function EnergyBonusPerHour(t: EventType): real
  {
    match t
    case Work => -(30.0 / 8.0)
    case GroceryShopping => -(20.0 / 8.0)
    case Exercise => -(100.0 / 8.0)
    case Leisure => -(20.0 / 8.0)
    case Relaxation => 40.0 / 8.0
    case Sleep => 100.0 / 8.0
  }

  /** Only relaxing and sleeping restore energy; a night of eight hours'
      sleep restores all of it, and eight hours of exercise use it all up. */
  lemma EnergyBonusSigns(t: EventType)
    ensures EnergyBonusPerHour(t) > 0.0 <==> t == Relaxation || t == Sleep
    ensures EnergyBonusPerHour(t) != 0.0
    ensures -(100.0 / 8.0) <= EnergyBonusPerHour(t) <= 100.0 / 8.0
    ensures 8.0 * EnergyBonusPerHour(Sleep) == 100.0 && 8.0 * EnergyBonusPerHour(Exercise) == -100.0
  {
  }

  /** Eight hours of work do a full day's work, sixteen hours of anything
      else bring it back; only leisure is rewarded more than exercise, and
      only work, sleep and shopping are missed. */
  lemma HappinessAndWorkTables(t: EventType)
    ensures 0.0 <= HappinessBonusPerHour(t) <= HappinessBonusPerHour(Leisure)
    ensures HappinessPenaltyPerHourMissed(t) > 0.0 <==> t in {Sleep, Work, GroceryShopping}
    ensures HappinessBonusPerHour(t) == 0.0 <==> t in {Work, GroceryShopping}
    ensures t == Work ==> 8.0 * RemainingWorkBonusPerHour(t) == -100.0
    ensures t != Work ==> 16.0 * RemainingWorkBonusPerHour(t) == 100.0
  {
  }

  /** Missing an event costs nothing for the types without a penalty, and
      never gives happiness back when the event ends after its departure. */
  lemma PenaltyForMissingSign(info: EventInfo)
    requires info.departure <= info.endTime
    requires info.path.Some? ==> info.path.value >= 0
    ensures PenaltyForMissing(info) >= 0.0
    ensures HappinessPenaltyPerHourMissed(info.eventType) == 0.0 ==> PenaltyForMissing(info) == 0.0
  {
    var pathDuration := if info.path.Some? then info.path.value else 0;
    var hours := (info.endTime - info.departure + pathDuration) as real / DT.SecondsPerHour as real;
    assert hours >= 0.0;
  }

  // ---------------------------------------------------------------------
  // How long an event can last (lines 298-307, 544-561)

  /** `GetMaxPossibleDuration`: in minutes, unbounded when the event does
      not tire, otherwise as long as the energy lasts. */
  function MaxPossibleDuration(t: EventType, energy: real): int
  {
    var bonus := EnergyBonusPerHour(t);
    if bonus >= 0.0 then Int32MaxValue else CSharpInt.TruncToInt((energy / -bonus) * 60.0)
  }

  /** For a tiring event, the result is the largest whole number of minutes
      whose energy cost stays within the citizen's energy. */
  lemma MaxPossibleDurationLasts(t: EventType, energy: real)
    requires energy >= 0.0
    ensures EnergyBonusPerHour(t) >= 0.0 ==> MaxPossibleDuration(t, energy) == Int32MaxValue
    ensures EnergyBonusPerHour(t) < 0.0 ==>
      var d := MaxPossibleDuration(t, energy);
      var cost := -EnergyBonusPerHour(t) / 60.0;
      d >= 0 && d as real * cost <= energy < (d + 1) as real * cost
  {
    var bonus := EnergyBonusPerHour(t);
    if bonus < 0.0 {
      var cost := -bonus / 60.0;
      var x := (energy / -bonus) * 60.0;
      assert x == energy / cost;
      var d := CSharpInt.TruncToInt(x);
      assert d as real <= x < (d + 1) as real;
      assert d as real * cost <= x * cost;
      assert x * cost < (d + 1) as real * cost;
    }
  }

  /** `GetRandomDuration`: the range in minutes `Random.Next` draws from,
      the upper bound excluded. */
  function RandomDurationRange(t: EventType): (int, int)
  {
    match t
    case Work => (480, 600)
    case Leisure => (30, 300)
    case Exercise => (30, 120)
    case GroceryShopping => (30, 60)
    case Relaxation => (30, 360)
    case Sleep => (30, 120)
  }

  /** Every range is non-empty, starts at half an hour at the least, and a
      random work event lasts eight to ten hours. */
  lemma RandomDurationRanges(t: EventType)
    ensures 30 <= RandomDurationRange(t).0 < RandomDurationRange(t).1 <= 600
    ensures t == Work <==> RandomDurationRange(t).0 == 480
  {
  }

  // ---------------------------------------------------------------------
  // Leisurely events (lines 309-361)

  /** `_leisureEventTypes`. */
  const LeisureTypes: seq<EventType> := [Sleep, Relaxation, Exercise, Leisure]

  /** The random draws of one leisurely event: the index into
      `LeisureTypes`, the drawn duration for that type, the destination and
      the duration of the path to it. */
  datatype LeisureDraws = LeisureDraws(pick: nat, randomDuration: int, destination: int,
                                       pathDuration: DT.TimeSpan)

  predicate ValidDraws(d: LeisureDraws)
  {
    d.pick < |LeisureTypes|
    && RandomDurationRange(LeisureTypes[d.pick]).0 <= d.randomDuration < RandomDurationRange(LeisureTypes[d.pick]).1
  }

  /** The energy below which the citizen goes to sleep, as written: a
      quarter of one point on the 0 to 100 scale of `Citizen.Energy`. */
  const SleepThresholdAsWritten: real := 0.25
  /** A quarter of the full energy, as the comment at line 327 says. */
  const SleepThreshold: real := 25.0

  /** The type and duration of a leisurely event of at least half an hour,
      for a given sleep threshold. */
  function LeisurePlan(threshold: real, minutes: int, energy: real, remainingWork: real,
                       d: LeisureDraws): (EventType, int)
    requires ValidDraws(d)
  {
    if energy < threshold then (Sleep, Min(9 * 60, minutes))
    else if remainingWork >= 75.0 then
      (Work, Min(Buildings.Ceil(remainingWork / (100.0 / 8.0) * 60.0), minutes))
    else
      var t := LeisureTypes[d.pick];
      (t, Min(Min(d.randomDuration, minutes), MaxPossibleDuration(t, energy)))
  }

  function LeisureEventWith(threshold: real, now: DT.DateTime, minutes: int, energy: real,
                            remainingWork: real, d: LeisureDraws): EventInfo
    requires ValidDraws(d)
  {
    if minutes < 30 then EventInfo(now, DT.AddMinutes(now, minutes), None, Relaxation, None)
    else
      var plan := LeisurePlan(threshold, minutes, energy, remainingWork, d);
      EventInfo(now, DT.AddMinutes(now + d.pathDuration, plan.1), Some(d.pathDuration), plan.0,
                Some(d.destination))
  }

  /** `GetLeisureEvent` as written. */
  function GetLeisureEventAsWritten(now: DT.DateTime, minutes: int, energy: real,
                                    remainingWork: real, d: LeisureDraws): EventInfo
    requires ValidDraws(d)
  {
    LeisureEventWith(SleepThresholdAsWritten, now, minutes, energy, remainingWork, d)
  }

  /** `GetLeisureEvent` with the threshold the comment states. */
  function GetLeisureEvent(now: DT.DateTime, minutes: int, energy: real,
                           remainingWork: real, d: LeisureDraws): EventInfo
    requires ValidDraws(d)
  {
    LeisureEventWith(SleepThreshold, now, minutes, energy, remainingWork, d)
  }

  /** A gap of less than half an hour is spent relaxing where the citizen
      is, with no path to follow, from now to the end of the gap. */
  lemma ShortGapRelaxes(threshold: real, now: DT.DateTime, minutes: int, energy: real,
                        remainingWork: real, d: LeisureDraws)
    requires ValidDraws(d) && minutes < 30
    ensures var e := LeisureEventWith(threshold, now, minutes, energy, remainingWork, d);
      e.eventType == Relaxation && e.path.None? && e.location.None?
      && e.departure == now && e.endTime - now == minutes * DT.SecondsPerMinute
  {
  }

  /** A longer gap: the citizen leaves now for the drawn destination, and
      the event, which starts on arrival, fits into the gap. Sleep lasts
      at most nine hours; a work event lasts until the remaining work is
      done unless the gap ends first; and a random leisurely event never
      costs more energy than the citizen has. */
  lemma LeisureEventFits(now: DT.DateTime, minutes: int, energy: real, remainingWork: real,
                         d: LeisureDraws)
    requires ValidDraws(d) && minutes >= 30 && 0.0 <= energy
    ensures var e := GetLeisureEvent(now, minutes, energy, remainingWork, d);
      var duration := LeisurePlan(SleepThreshold, minutes, energy, remainingWork, d).1;
      e.departure == now && e.path == Some(d.pathDuration) && e.location == Some(d.destination)
      && e.endTime == now + d.pathDuration + duration * DT.SecondsPerMinute
      && 0 <= duration <= minutes
      && (e.eventType == Sleep <==> energy < SleepThreshold || (remainingWork < 75.0 && d.pick == 0))
      && (energy < SleepThreshold ==> duration == Min(540, minutes))
      && (e.eventType == Work ==> (energy >= SleepThreshold && remainingWork >= 75.0
          && (duration == minutes
              || (remainingWork + duration as real / 60.0 * RemainingWorkBonusPerHour(Work) <= 0.0
                  && remainingWork + (duration - 1) as real / 60.0 * RemainingWorkBonusPerHour(Work) > 0.0))))
      && (energy >= SleepThreshold && remainingWork < 75.0 && EnergyBonusPerHour(e.eventType) < 0.0 ==>
          duration as real * (-EnergyBonusPerHour(e.eventType) / 60.0) <= energy)
  {
    var plan := LeisurePlan(SleepThreshold, minutes, energy, remainingWork, d);
    var t := LeisureTypes[d.pick];
    MaxPossibleDurationLasts(t, energy);
    RandomDurationRanges(t);
    if energy >= SleepThreshold && remainingWork >= 75.0 {
      var c := Buildings.Ceil(remainingWork / (100.0 / 8.0) * 60.0);
      assert remainingWork / (100.0 / 8.0) * 60.0 == remainingWork * 4.8;
      assert (c - 1) as real < remainingWork * 4.8 <= c as real;
    }
  }

  /** Below a quarter of the full energy the citizen goes to sleep: at a
      tenth of it, the threshold as written lets a random leisurely event
      such as exercise be drawn instead, while the corrected one sleeps. */
  lemma SleepThresholdFinding(now: DT.DateTime)
    ensures var d := LeisureDraws(2, 60, 0, 0);
      ValidDraws(d)
      && GetLeisureEventAsWritten(now, 600, 10.0, 0.0, d).eventType == Exercise
      && GetLeisureEvent(now, 600, 10.0, 0.0, d).eventType == Sleep
  {
  }

  /** With the corrected threshold the citizen sleeps exactly when the
      energy is under a quarter of the full 100, whatever else is drawn. */
  lemma SleepsWhenTired(now: DT.DateTime, minutes: int, energy: real, remainingWork: real,
                        d: LeisureDraws)
    requires ValidDraws(d) && minutes >= 30 && d.pick != 0
    ensures GetLeisureEvent(now, minutes, energy, remainingWork, d).eventType == Sleep <==> energy < 25.0
  {
  }

  // ---------------------------------------------------------------------
  // Fixed events (lines 186-296)

  ghost predicate SortedByStart(s: seq<FixedEvent>)
  {
    forall i, j :: 0 <= i < j < |s| ==> s[i].startingTime <= s[j].startingTime
  }

  /** The order `Array.Sort` gives the fixed events: by starting time. */
  function InsertByStart(x: FixedEvent, s: seq<FixedEvent>): (r: seq<FixedEvent>)
    ensures |r| == |s| + 1 && (r[0] == x || (s != [] && r[0] == s[0]))
  {
    if s == [] || x.startingTime <= s[0].startingTime then [x] + s
    else [s[0]] + InsertByStart(x, s[1..])
  }

  function SortByStart(s: seq<FixedEvent>): (r: seq<FixedEvent>)
    ensures |r| == |s|
  {
    if s == [] then [] else InsertByStart(s[0], SortByStart(s[1..]))
  }

  lemma {:induction false} InsertByStartSorted(x: FixedEvent, s: seq<FixedEvent>)
    requires SortedByStart(s)
    ensures SortedByStart(InsertByStart(x, s))
  {
    if s != [] && x.startingTime > s[0].startingTime {
      var t := InsertByStart(x, s[1..]);
      InsertByStartSorted(x, s[1..]);
      var r := [s[0]] + t;
      forall i, j | 0 <= i < j < |r|
        ensures r[i].startingTime <= r[j].startingTime
      {
        assert r[j] == t[j - 1];
        if i == 0 {
          assert s[0].startingTime <= t[0].startingTime;
        } else {
          assert r[i] == t[i - 1];
        }
      }
    }
  }

  lemma {:induction false} InsertByStartPermutes(x: FixedEvent, s: seq<FixedEvent>)
    ensures multiset(InsertByStart(x, s)) == multiset(s) + multiset{x}
  {
    if s != [] && x.startingTime > s[0].startingTime {
      InsertByStartPermutes(x, s[1..]);
      assert s == [s[0]] + s[1..];
    }
  }

  /** The fixed events, once sorted, are ordered by starting time and are
      the same events as before. */
  lemma {:induction false} SortByStartCorrect(s: seq<FixedEvent>)
    ensures SortedByStart(SortByStart(s))
    ensures multiset(SortByStart(s)) == multiset(s)
  {
    if s != [] {
      SortByStartCorrect(s[1..]);
      InsertByStartSorted(s[0], SortByStart(s[1..]));
      InsertByStartPermutes(s[0], SortByStart(s[1..]));
      assert s == [s[0]] + s[1..];
    }
  }

  /** The day of the week (Sunday = 0) a number of days after `now`. */
  function DayIndex(now: DT.DateTime, addedDays: nat): (r: int)
    ensures 0 <= r < 7
  {
    (DT.DayOfWeek(now) + addedDays) % 7
  }

  /** The weekday flag the search tests, `GetWeekday().AddDays(addedDays)`,
      is the flag of that day. */
  lemma WeekdayOfAddedDays(now: DT.DateTime, addedDays: nat)
    ensures Ext.AddDays(Ext.GetWeekday(now), addedDays) == W.DayFlag(DayIndex(now, addedDays))
  {
    Ext.GetWeekdayFlag(now, now, 0);
    Ext.AddDaysRotates(DT.DayOfWeek(now), addedDays);
  }

  /** The two tests of lines 244-255: an event done today is not chosen
      again today, and an event must take place on the day. */
  predicate Eligible(e: FixedEvent, done: bool, day: int, addedDays: nat)
    requires 0 <= day < 7
  {
    !(done && addedDays == 0) && W.HasDay(e.weekdays, day)
  }

  /** The first event from index `k` on that passes both tests. */
  function FirstEligible(events: seq<FixedEvent>, done: seq<bool>, day: int, addedDays: nat,
                         k: nat): (r: Option<nat>)
    requires |done| == |events| && k <= |events| && 0 <= day < 7
    ensures r.Some? ==> k <= r.value < |events|
    decreases |events| - k
  {
    if k == |events| then None
    else if Eligible(events[k], done[k], day, addedDays) then Some(k)
    else FirstEligible(events, done, day, addedDays, k + 1)
  }

  lemma {:induction false} FirstEligibleIsFirst(events: seq<FixedEvent>, done: seq<bool>, day: int,
                                                addedDays: nat, k: nat, j: nat)
    requires |done| == |events| && k <= j < |events| && 0 <= day < 7
    ensures var r := FirstEligible(events, done, day, addedDays, k);
      (r.Some? ==> Eligible(events[r.value], done[r.value], day, addedDays))
      && (Eligible(events[j], done[j], day, addedDays) ==> r.Some? && r.value <= j)
    decreases |events| - k
  {
    if !Eligible(events[k], done[k], day, addedDays) {
      if k < j {
        FirstEligibleIsFirst(events, done, day, addedDays, k + 1, j);
      } else if k + 1 < |events| {
        FirstEligibleIsFirst(events, done, day, addedDays, k + 1, k + 1);
      }
    }
  }

  /** After today, having been done no longer matters. */
  lemma {:induction false} FirstEligibleLaterDays(events: seq<FixedEvent>, done: seq<bool>, day: int,
                                                  a: nat, b: nat, k: nat)
    requires |done| == |events| && k <= |events| && 0 <= day < 7 && a > 0 && b > 0
    ensures FirstEligible(events, done, day, a, k) == FirstEligible(events, done, day, b, k)
    decreases |events| - k
  {
    if k < |events| {
      FirstEligibleLaterDays(events, done, day, a, b, k + 1);
    }
  }

  /** The search of `GetNextFixedEvent` from `addedDays` on: the first day
      with an eligible event, and that event. It is cut off after today and
      the seven following days, which cover every weekday. */
  function FindNext(events: seq<FixedEvent>, done: seq<bool>, now: DT.DateTime, addedDays: nat)
    : (r: Option<(nat, nat)>)
    requires |done| == |events|
    ensures r.Some? ==> r.value.0 < |events| && addedDays <= r.value.1 <= 7
    decreases 8 - addedDays
  {
    if addedDays >= 8 then None
    else match FirstEligible(events, done, DayIndex(now, addedDays), addedDays, 0)
      case Some(i) => Some((i, addedDays))
      case None => FindNext(events, done, now, addedDays + 1)
  }

  /** The event found is the first eligible one, in the order of starting
      times, of the first day that has one. */
  lemma {:induction false} FindNextIsEarliest(events: seq<FixedEvent>, done: seq<bool>,
                                              now: DT.DateTime, addedDays: nat, b: nat, j: nat)
    requires |done| == |events| && addedDays <= b <= 7 && j < |events|
    requires SortedByStart(events)
    requires Eligible(events[j], done[j], DayIndex(now, b), b)
    ensures var r := FindNext(events, done, now, addedDays);
      r.Some? && r.value.1 <= b
      && FirstEligible(events, done, DayIndex(now, r.value.1), r.value.1, 0) == Some(r.value.0)
      && (r.value.1 == b ==> events[r.value.0].startingTime <= events[j].startingTime)
    decreases 8 - addedDays
  {
    var f := FirstEligible(events, done, DayIndex(now, addedDays), addedDays, 0);
    if addedDays == b {
      FirstEligibleIsFirst(events, done, DayIndex(now, b), b, 0, j);
    } else if f.None? {
      FindNextIsEarliest(events, done, now, addedDays + 1, b, j);
    }
  }

  lemma {:induction false} FindNextNoneAfter(events: seq<FixedEvent>, done: seq<bool>,
                                             now: DT.DateTime, addedDays: nat, b: nat)
    requires |done| == |events| && addedDays <= b <= 7
    requires FindNext(events, done, now, addedDays).None?
    ensures FirstEligible(events, done, DayIndex(now, b), b, 0).None?
    decreases b - addedDays
  {
    if addedDays < b {
      FindNextNoneAfter(events, done, now, addedDays + 1, b);
    }
  }

  /** When the cut-off search finds nothing, no number of added days would
      find anything: the unbounded recursion of line 295 never returns. */
  lemma NoEventOnAnyDay(events: seq<FixedEvent>, done: seq<bool>, now: DT.DateTime, a: nat)
    requires |done| == |events| && FindNext(events, done, now, 0).None?
    ensures FirstEligible(events, done, DayIndex(now, a), a, 0).None?
  {
    if a <= 7 {
      FindNextNoneAfter(events, done, now, 0, a);
    } else {
      var q := (a - 1) / 7;
      var b := a - 7 * q;
      assert 1 <= b <= 7;
      var day := DayIndex(now, b);
      assert DayIndex(now, a) == day by {
        CSharpInt.ModMultiple(DT.DayOfWeek(now) + a, q, DT.DayOfWeek(now) + b, 7);
      }
      FindNextNoneAfter(events, done, now, 0, b);
      FirstEligibleLaterDays(events, done, day, a, b, 0);
    }
  }

  /** Lines 262-284: the departure and end of an event `addedDays` from
      now, given the travel time to it. */
  function Timing(e: FixedEvent, now: DT.DateTime, addedDays: nat, travel: DT.TimeSpan)
    : (DT.DateTime, DT.DateTime)
  {
    var startingTime := DT.AddMinutes(DT.AddDays(DT.Date(now), addedDays), e.startingTime);
    var departure := startingTime - travel;
    if departure >= now then (departure, DT.AddMinutes(startingTime, e.duration))
    else if e.mustBePerformedFully then (now, DT.AddMinutes(now, e.duration))
    else (now, DT.AddMinutes(startingTime, e.duration))
  }

  /** The citizen never leaves in the past: departing on time when there is
      still time, otherwise at once. An event reached on time, or a late one
      that need not be done in full, ends at its scheduled end; a late one
      that must be done in full runs for its whole duration from now. */
  lemma TimingRules(e: FixedEvent, now: DT.DateTime, addedDays: nat, travel: DT.TimeSpan)
    ensures var (departure, endTime) := Timing(e, now, addedDays, travel);
      var midnight := DT.AddDays(DT.Date(now), addedDays);
      var startingTime := DT.AddMinutes(midnight, e.startingTime);
      departure >= now
      && (startingTime - travel >= now ==> departure == startingTime - travel)
      && (startingTime - travel < now ==> departure == now)
      && (startingTime - travel >= now || !e.mustBePerformedFully ==>
          endTime == DT.AddMinutes(midnight, EndTime(e)))
      && (startingTime - travel < now && e.mustBePerformedFully ==>
          endTime - departure == e.duration * DT.SecondsPerMinute)
  {
  }

  /** The location of event `i`: the one already chosen for it, or the new
      destination. */
  function LocationFor(locations: seq<Option<int>>, i: nat, destination: int): int
    requires i < |locations|
  {
    if locations[i].Some? then locations[i].value else destination
  }

  /** What `GetNextFixedEvent` returns: the event and its index. */
  function NextFixedEvent(events: seq<FixedEvent>, done: seq<bool>, locations: seq<Option<int>>,
                          now: DT.DateTime, destination: int, travel: int -> DT.TimeSpan)
    : (r: Option<(EventInfo, nat)>)
    requires |done| == |events| && |locations| == |events|
    ensures r.Some? ==> r.value.1 < |events|
  {
    match FindNext(events, done, now, 0)
    case None => None
    case Some(found) =>
      var e := events[found.0];
      var location := LocationFor(locations, found.0, destination);
      var timing := Timing(e, now, found.1, travel(location));
      Some((EventInfo(timing.0, timing.1, None, e.eventType, Some(location)), found.0))
  }

  /** The locations after the search: the chosen event keeps its location. */
  function LocationsAfter(events: seq<FixedEvent>, done: seq<bool>, locations: seq<Option<int>>,
                          now: DT.DateTime, destination: int): (r: seq<Option<int>>)
    requires |done| == |events| && |locations| == |events|
    ensures |r| == |locations|
  {
    match FindNext(events, done, now, 0)
    case None => locations
    case Some(found) => locations[found.0 := Some(LocationFor(locations, found.0, destination))]
  }

  /** All `false`: no fixed event done, as after `Reset`. */
  function NoneDone(n: nat): (r: seq<bool>)
    ensures |r| == n
  {
    seq(n, _ => false)
  }

  function NoLocations(n: nat): (r: seq<Option<int>>)
    ensures |r| == n
  {
    seq(n, _ => None)
  }

  class Schedule {
    /** `_fixedEvents`, sorted; empty when there are none. */
    var events: seq<FixedEvent>
    /** `_done` and `_location` of each fixed event. */
    var done: seq<bool>
    var locations: seq<Option<int>>
    /** `_nextFixedEvent`: the event and the index of its fixed event. */
    var nextFixed: Option<(EventInfo, nat)>

    ghost predicate Valid()
      reads this
    {
      |done| == |events| && |locations| == |events| && SortedByStart(events)
      && (nextFixed.Some? ==> nextFixed.value.1 < |events|)
    }

    /** Lines 186-203. */
    constructor (fixedEvents: seq<FixedEvent>)
      ensures events == SortByStart(fixedEvents) && multiset(events) == multiset(fixedEvents)
      ensures done == NoneDone(|fixedEvents|) && locations == NoLocations(|fixedEvents|)
      ensures nextFixed.None? && Valid()
    {
      SortByStartCorrect(fixedEvents);
      events := SortByStart(fixedEvents);
      done := NoneDone(|fixedEvents|);
      locations := NoLocations(|fixedEvents|);
      nextFixed := None;
    }

    /** `Reset` (lines 206-216): nothing done, no location chosen. */
    method Reset()
      requires Valid()
      modifies this
      ensures done == NoneDone(|events|) && locations == NoLocations(|events|)
      ensures events == old(events) && nextFixed == old(nextFixed) && Valid()
    {
      var k := 0;
      while k < |events|
        invariant 0 <= k <= |events| && |done| == |events| && |locations| == |events|
        invariant events == old(events) && nextFixed == old(nextFixed)
        invariant done[..k] == NoneDone(k) && locations[..k] == NoLocations(k)
      {
        done := done[k := false];
        locations := locations[k := None];
        k := k + 1;
      }
    }

    /** Lines 262-284, as `Timing` states them. */
    static method DepartureAndEnd(e: FixedEvent, now: DT.DateTime, addedDays: nat,
                                  travel: DT.TimeSpan)
      returns (departure: DT.DateTime, endTime: DT.DateTime)
      ensures (departure, endTime) == Timing(e, now, addedDays, travel)
    {
      var startingTime := DT.AddMinutes(DT.AddDays(DT.Date(now), addedDays), e.startingTime);
      departure := startingTime - travel;
      if departure >= now {
        endTime := DT.AddMinutes(startingTime, e.duration);
      } else if e.mustBePerformedFully {
        departure := now;
        endTime := DT.AddMinutes(now, e.duration);
      } else {
        departure := now;
        endTime := DT.AddMinutes(startingTime, e.duration);
      }
    }

    /** The loop over the fixed events of lines 243-293 for one day: the
        first one not done (when the day is today) that takes place on the
        day, whose flag is `DayFlag(day)`. */
    method FindEventOn(day: int, addedDays: nat) returns (found: Option<nat>)
      requires Valid() && 0 <= day < 7
      ensures found == FirstEligible(events, done, day, addedDays, 0)
    {
      var k := 0;
      while k < |events|
        invariant 0 <= k <= |events|
        invariant FirstEligible(events, done, day, addedDays, 0)
               == FirstEligible(events, done, day, addedDays, k)
      {
        if done[k] && addedDays == 0 {
        } else if W.HasDay(events[k].weekdays, day) {
          return Some(k);
        }
        k := k + 1;
      }
      return None;
    }

    /** `GetNextFixedEvent` (lines 234-296), with its recursion over the
        added days as the outer loop. The travel time to a location is a
        parameter, as is the destination chosen for an event without one. */
    method GetNextFixedEvent(now: DT.DateTime, destination: int, travel: int -> DT.TimeSpan)
      returns (r: Option<(EventInfo, nat)>)
      requires Valid()
      modifies this
      ensures events == old(events) && done == old(done) && nextFixed == old(nextFixed) && Valid()
      ensures r == NextFixedEvent(events, done, old(locations), now, destination, travel)
      ensures locations == LocationsAfter(events, done, old(locations), now, destination)
    {
      var addedDays := 0;
      while addedDays < 8
        invariant 0 <= addedDays <= 8
        invariant events == old(events) && done == old(done) && nextFixed == old(nextFixed)
        invariant locations == old(locations)
        invariant FindNext(events, done, now, 0) == FindNext(events, done, now, addedDays)
      {
        // The flag `GetWeekday().AddDays(addedDays)` is that of `day`.
        WeekdayOfAddedDays(now, addedDays);
        var day := DayIndex(now, addedDays);
        var found := FindEventOn(day, addedDays);
        if found.Some? {
          var k := found.value;
          assert FindNext(events, done, now, addedDays) == Some((k, addedDays));
          var location := if locations[k].Some? then locations[k].value else destination;
          locations := locations[k := Some(location)];
          var e := events[k];
          var departure, endTime := DepartureAndEnd(e, now, addedDays, travel(location));
          return Some((EventInfo(departure, endTime, None, e.eventType, Some(location)), k));
        }
        addedDays := addedDays + 1;
      }
      return None;
    }

    /** `GetNextEvent` (lines 364-400). The citizen's energy and remaining
        work, the destination and travel times, the draws of a leisurely
        event and the duration of the path to a fixed event are parameters.
        `None` stands for the case in which no fixed event takes place on
        any day, where the search of the source never returns. */
    method GetNextEvent(now: DT.DateTime, newDay: bool, energy: real, remainingWork: real,
                        destination: int, travel: int -> DT.TimeSpan, draws: LeisureDraws,
                        pathDuration: DT.TimeSpan)
      returns (r: Option<EventInfo>)
      requires Valid() && ValidDraws(draws)
      modifies this
      ensures events == old(events) && Valid()
      ensures var done0 := if newDay then NoneDone(|events|) else old(done);
        var locations0 := if newDay then NoLocations(|events|) else old(locations);
        var pending := if old(nextFixed).Some? then old(nextFixed)
                       else NextFixedEvent(events, done0, locations0, now, destination, travel);
        if events == [] then
          r == Some(GetLeisureEvent(now, Int32MaxValue, energy, remainingWork, draws))
          && nextFixed == old(nextFixed)
        else if pending.None? then
          r.None?
        else
          var timeLeft := CSharpInt.TruncToInt((pending.value.0.departure - now) as real / 60.0);
          locations == (if old(nextFixed).Some? then locations0
                        else LocationsAfter(events, done0, locations0, now, destination))
          && (timeLeft > 0 ==>
                r == Some(GetLeisureEvent(now, timeLeft, energy, remainingWork, draws))
                && nextFixed == pending && done == done0)
          && (timeLeft <= 0 ==>
                r == Some(pending.value.0.(path := Some(pathDuration)))
                && nextFixed.None? && done == done0[pending.value.1 := true])
    {
      if newDay {
        Reset();
      }
      if events == [] {
        return Some(GetLeisureEvent(now, Int32MaxValue, energy, remainingWork, draws));
      }
      if nextFixed.None? {
        nextFixed := GetNextFixedEvent(now, destination, travel);
        if nextFixed.None? {
          return None;
        }
      }
      var next := nextFixed.value.0;
      var timeLeft := CSharpInt.TruncToInt((next.departure - now) as real / 60.0);
      if timeLeft > 0 {
        return Some(GetLeisureEvent(now, timeLeft, energy, remainingWork, draws));
      }
      done := done[nextFixed.value.1 := true];
      nextFixed := None;
      return Some(next.(path := Some(pathDuration)));
    }
  }

  /** A fixed event that the schedule hands out departs no earlier than the
      time it was planned at, by the timing rules. */
  lemma NextFixedDepartsLater(events: seq<FixedEvent>, done: seq<bool>, locations: seq<Option<int>>,
                              now: DT.DateTime, destination: int, travel: int -> DT.TimeSpan)
    requires |done| == |events| && |locations| == |events|
    ensures var r := NextFixedEvent(events, done, locations, now, destination, travel);
      r.Some? ==> (r.value.0.departure >= now && r.value.0.path.None?
        && r.value.0.eventType == events[r.value.1].eventType
        && LocationsAfter(events, done, locations, now, destination)[r.value.1] == r.value.0.location)
  {
    match FindNext(events, done, now, 0)
    case None =>
    case Some(found) =>
      var location := LocationFor(locations, found.0, destination);
      TimingRules(events[found.0], now, found.1, travel(location));
  }
}
