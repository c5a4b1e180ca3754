/** Extension methods on dictionaries, lists, dates and weekday flags
    (Assets/Scripts/Utility/GameObjectExtensions.cs). */
module Extensions {
  import opened Wrappers
  import opened CSharpInt
  import DT = DateTimes
  import opened Schedule

  /** A mutable `IDictionary`. */
  class Dictionary<K(==), V> {
    var entries: map<K, V>

    constructor ()
      ensures entries == map[]
    {
      entries := map[];
    }

    /** `GetOrPutDefault(key, defaultValue)`: the stored value, or the default
        after it has been stored under the key. */
    method GetOrPutDefault(key: K, defaultValue: V) returns (value: V)
      modifies this
      ensures key in old(entries) ==> value == old(entries)[key] && entries == old(entries)
      ensures key !in old(entries) ==> value == defaultValue && entries == old(entries)[key := defaultValue]
      ensures key in entries && entries[key] == value
    {
      if key in entries {
        value := entries[key];
      } else {
        entries := entries[key := defaultValue];
        value := defaultValue;
      }
    }

    /** `GetOrPutDefault(key, defaultValueProvider)`: the provider is consulted
        only when the key is missing. */
    method GetOrPutProvided(key: K, provider: () -> V) returns (value: V)
      modifies this
      ensures key in old(entries) ==> value == old(entries)[key] && entries == old(entries)
      ensures key !in old(entries) ==> value == provider() && entries == old(entries)[key := provider()]
      ensures key in entries && entries[key] == value
    {
      if key in entries {
        value := entries[key];
      } else {
        var defaultValue := provider();
        entries := entries[key := defaultValue];
        value := defaultValue;
      }
    }
  }

  /** `SecondToLast`: the element before the last one, or `None` for a list
      of fewer than two elements, where the index is out of range and the
      list throws. */
  function SecondToLast<T>(list: seq<T>): (r: Option<T>)
    ensures r.Some? <==> |list| >= 2
    ensures r.Some? ==> r.value in list
  {
    if |list| >= 2 then Some(list[|list| - 2]) else None
  }

  /** Appending an element makes the former last element the second to last. */
  lemma SecondToLastAppend<T>(list: seq<T>, x: T)
    requires |list| >= 1
    ensures SecondToLast(list + [x]) == Some(list[|list| - 1])
  {
  }

  /** `TryGet`: the element at the index, or the default past the end; `None`
      for a negative index, which the list refuses with an exception. */
  function TryGet<T>(list: seq<T>, index: int, dflt: T): (r: Option<T>)
    ensures r.None? <==> index < 0
    ensures r.Some? ==> r.value in list || r.value == dflt
  {
    if |list| > index then
      if index < 0 then None else Some(list[index])
    else Some(dflt)
  }

  /** `TryGet` agrees with indexing inside the list and gives the default
      everywhere past it, however the list is extended. */
  lemma TryGetInsideAndPast<T>(list: seq<T>, more: seq<T>, index: int, dflt: T)
    requires index >= 0
    ensures index < |list| ==> TryGet(list, index, dflt) == Some(list[index]) == TryGet(list + more, index, dflt)
    ensures index >= |list| ==> TryGet(list, index, dflt) == Some(dflt)
  {
  }

  /** `GetWeekday`: the flag of the date's day of the week. */
  function GetWeekday(t: DT.DateTime): (w: int)
  {
    var d := DT.DayOfWeek(t);
    if d == 1 then Monday
    else if d == 2 then Tuesday
    else if d == 3 then Wednesday
    else if d == 4 then Thursday
    else if d == 5 then Friday
    else if d == 6 then Saturday
    else Sunday
  }

  /** The flag of a date holds exactly its own day of the week, so two dates
      have the same flag exactly when they fall on the same weekday. */
  lemma GetWeekdayFlag(t: DT.DateTime, u: DT.DateTime, e: int)
    requires 0 <= e < 7
    ensures GetWeekday(t) == DayFlag(DT.DayOfWeek(t))
    ensures HasDay(GetWeekday(t), e) <==> e == DT.DayOfWeek(t)
    ensures GetWeekday(t) == GetWeekday(u) <==> DT.DayOfWeek(t) == DT.DayOfWeek(u)
  {
    DayFlagsDistinct(DT.DayOfWeek(t), e);
    DayFlagsDistinct(DT.DayOfWeek(t), DT.DayOfWeek(u));
    DayFlagsDistinct(DT.DayOfWeek(u), DT.DayOfWeek(u));
  }

  /** `Weekday.AddDays`: shift the flag left by the day count modulo 7 (C#'s
      remainder), and when no bit is left among the seven day bits, shift it
      right by the complement instead. */
  function AddDays(wd: int, days: int): int
    requires IsInt32(wd)
  {
    var d := TruncRem(days, 7);
    var result := ShiftLeft(wd, d);
    if result % 128 == 0 then ShiftRight(wd, 7 - d) else result
  }

  /** The single-day flags are the powers of two. */
  lemma DayFlagPow2(p: int)
    requires 0 <= p < 7
    ensures DayFlag(p) == Pow2(p)
  {
    if p == 0 { assert Pow2(0) == 1; }
    else if p == 1 { assert Pow2(1) == 2; }
    else if p == 2 { assert Pow2(2) == 4; }
    else if p == 3 { assert Pow2(3) == 8; }
    else if p == 4 { assert Pow2(4) == 16; }
    else if p == 5 { assert Pow2(5) == 32; }
    else { assert Pow2(6) == 64; }
  }

  /** Whether any of the seven day bits is set, for a power of two. */
  lemma Pow2DayBits(e: nat)
    ensures e < 7 ==> Pow2(e) % 128 != 0
    ensures e >= 7 ==> Pow2(e) % 128 == 0
  {
    if e < 7 {
      Pow2Monotone(e, 6);
      assert Pow2(6) == 64;
    } else {
      Pow2Add(e - 7, 7);
      assert Pow2(7) == 128;
      DivExact(Pow2(e - 7), 128);
    }
  }

  /** `AddDays` when the left shift keeps a day bit. */
  lemma AddDaysKeep(wd: int, days: int)
    requires IsInt32(wd) && ShiftLeft(wd, TruncRem(days, 7)) % 128 != 0
    ensures AddDays(wd, days) == ShiftLeft(wd, TruncRem(days, 7))
  {
  }

  /** `AddDays` when the left shift leaves no day bit. */
  lemma AddDaysBack(wd: int, days: int)
    requires IsInt32(wd) && ShiftLeft(wd, TruncRem(days, 7)) % 128 == 0
    ensures AddDays(wd, days) == ShiftRight(wd, 7 - TruncRem(days, 7))
  {
  }

  lemma ModOnce(x: int)
    requires 7 <= x < 14
    ensures x % 7 == x - 7
  {
  }

  /** Adding a non-negative count below a week to a power of two below
      `2^7`. */
  lemma AddDaysPow2(p: nat, days: int)
    requires p < 7 && 0 <= days < 7 && IsInt32(Pow2(p))
    ensures AddDays(Pow2(p), days) == Pow2((p + days) % 7)
  {
    if p + days < 7 {
      assert (p + days) % 7 == p + days;
      AddDaysForward(p, days);
    } else {
      ModOnce(p + days);
      AddDaysAround(p, days);
    }
  }

  /** Within the week, the flag moves up by the count. */
  lemma AddDaysForward(p: nat, days: int)
    requires 0 <= days && p + days < 7 && IsInt32(Pow2(p))
    ensures AddDays(Pow2(p), days) == Pow2(p + days)
  {
    assert TruncRem(days, 7) == days;
    ShiftLeftPow2(p, days);
    Pow2DayBits(p + days);
    AddDaysKeep(Pow2(p), days);
  }

  /** Past the end of the week, the flag comes back from the start. */
  lemma AddDaysAround(p: nat, days: int)
    requires p < 7 && days < 7 && 7 <= p + days && IsInt32(Pow2(p))
    ensures AddDays(Pow2(p), days) == Pow2(p + days - 7)
  {
    assert TruncRem(days, 7) == days;
    ShiftLeftPow2(p, days);
    Pow2DayBits(p + days);
    ShiftRightPow2(p, 7 - days);
    AddDaysBack(Pow2(p), days);
  }

  /** For a non-negative count, adding days to a single-day flag moves it
      around the week. */
  lemma AddDaysRotates(p: int, days: int)
    requires 0 <= p < 7 && days >= 0
    ensures AddDays(DayFlag(p), days) == DayFlag((p + days) % 7)
  {
    var d := days % 7;
    var e := (p + days) % 7;
    assert e == (p + d) % 7 by {
      ModMultiple(p + days, days / 7, p + d, 7);
    }
    DayFlagPow2(p);
    Pow2IsInt32(p);
    AddDaysSameRemainder(Pow2(p), days, d);
    AddDaysPow2(p, d);
    DayFlagPow2(e);
  }

  /** A 32-bit value of a power of two from `2^7` on has none of the seven day
      bits. */
  lemma WrappedPow2NoDays(e: nat)
    requires e >= 7
    ensures ToInt32(Pow2(e)) % 128 == 0
  {
    Pow2Add(e - 7, 7);
    assert Pow2(7) == 128;
    var a := Pow2(e - 7);
    var y := Pow2(e) + TwoTo31;
    assert y == (a + 0x100_0000) * 128;
    var q := y / TwoTo32;
    assert y % TwoTo32 == y - q * TwoTo32;
    var c := (a + 0x100_0000) - q * 0x200_0000 - 0x100_0000;
    assert ToInt32(Pow2(e)) == c * 128;
    DivExact(c, 128);
  }

  /** For a negative count that is not a whole number of weeks, the left shift
      by a count of 26 to 31 leaves no day bit, and the right shift by 8 to 13
      clears the flag: no day at all. */
  lemma AddDaysBackwardsLosesDay(p: int, days: int)
    requires 0 <= p < 7 && days < 0 && days % 7 != 0
    ensures AddDays(DayFlag(p), days) == WeekdayNone
  {
    DayFlagPow2(p);
    var d := TruncRem(days, 7);
    assert -6 <= d < 0;
    assert d % 32 == d + 32;
    Pow2Add(p, d + 32);
    assert ShiftLeft(Pow2(p), d) == ToInt32(Pow2(p + d + 32));
    WrappedPow2NoDays(p + d + 32);
    ShiftRightPow2(p, 7 - d);
  }

  /** Only the remainder of the day count matters. */
  lemma AddDaysSameRemainder(wd: int, a: int, b: int)
    requires IsInt32(wd) && TruncRem(a, 7) == TruncRem(b, 7)
    ensures AddDays(wd, a) == AddDays(wd, b)
  {
  }

  /** Adding no days gives back any weekday set. */
  lemma AddDaysZero(wd: int)
    requires wd == WeekdayAll || 0 <= wd < 128
    ensures AddDays(wd, 0) == wd
  {
    assert TruncRem(0, 7) == 0;
    ShiftLeftZero(wd);
    if wd == 0 {
      assert ShiftRight(0, 7) == 0;
      AddDaysBack(wd, 0);
    } else {
      assert wd % 128 != 0;
      AddDaysKeep(wd, 0);
    }
  }

  lemma ShiftLeftZero(wd: int)
    requires IsInt32(wd)
    ensures ShiftLeft(wd, 0) == wd
  {
    assert Pow2(0) == 1;
  }

  /** Adding whole weeks gives back any weekday set: each combination of the
      seven day bits, and `All`. */
  lemma AddDaysWholeWeeks(wd: int, k: int)
    requires wd == WeekdayAll || 0 <= wd < 128
    ensures AddDays(wd, 7 * k) == wd
  {
    if 7 * k >= 0 {
      ModMultiple(7 * k, k, 0, 7);
    } else {
      ModMultiple(-(7 * k), -k, 0, 7);
    }
    AddDaysSameRemainder(wd, 7 * k, 0);
    AddDaysZero(wd);
  }
}
