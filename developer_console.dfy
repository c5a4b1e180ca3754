/** The developer console of Assets/Scripts/UI/DeveloperConsole.cs: the
    history of commands run, the cursor the arrow keys move through it, the
    text the input field then shows, the `settime` command's parsing and the
    list of startup commands kept in the player preferences. */
module DeveloperConsoles {
  import opened Wrappers
  import opened CSharpInt
  import opened DecimalText
  import opened DateTimes
  import opened Texts

  /** `Mathf.Clamp` on integers: below `lo` gives `lo`, otherwise above
      `hi` gives `hi`. */
  function ClampInt(x: int, lo: int, hi: int): (r: int)
    ensures lo <= hi ==> lo <= r <= hi
    ensures lo <= x <= hi ==> r == x
  {
    if x < lo then lo else if x > hi then hi else x
  }

  /** The cursor after the arrow keys pressed in one frame (lines 90-101):
      up goes one entry further back, down one entry nearer, both within
      `-1 .. count - 1`; with both pressed, up is applied first. */
  function MoveCursor(cursor: int, count: int, up: bool, down: bool): (r: int)
    requires count >= 1
    ensures up || down ==> -1 <= r < count
    ensures !up && !down ==> r == cursor
  {
    var c := if up then ClampInt(cursor + 1, -1, count - 1) else cursor;
    if down then ClampInt(c - 1, -1, count - 1) else c
  }

  /** Down undoes up, and up undoes down, away from the ends of the
      history. */
  lemma CursorInverse(cursor: int, count: int)
    requires count >= 1 && -1 <= cursor < count
    ensures cursor < count - 1 ==> MoveCursor(MoveCursor(cursor, count, true, false), count, false, true) == cursor
    ensures cursor > -1 ==> MoveCursor(MoveCursor(cursor, count, false, true), count, true, false) == cursor
    ensures MoveCursor(cursor, count, true, true) == (if cursor == count - 1 then count - 2 else cursor)
  {
  }

  /** The text shown for a cursor (lines 103-113): nothing at `-1`, and at
      `k` the `k`-th command before the last one run. */
  function Shown(history: seq<string>, cursor: int): string
    requires -1 <= cursor < |history|
  {
    if cursor == -1 then "" else history[|history| - 1 - cursor]
  }

  /** Pressing up `k + 1` times from the empty input shows the `k`-th most
      recent command, and one press more past the oldest stays on it. */
  lemma {:induction false} UpPresses(history: seq<string>, k: nat)
    requires k < |history|
    ensures UpFrom(-1, |history|, k + 1) == k
    ensures Shown(history, UpFrom(-1, |history|, k + 1)) == history[|history| - 1 - k]
    ensures UpFrom(-1, |history|, |history| + 1) == |history| - 1
  {
    UpCount(|history|, k + 1);
    UpCount(|history|, |history| + 1);
  }

  /** The cursor after `n` presses of up. */
  function UpFrom(cursor: int, count: int, n: nat): int
    requires count >= 1
  {
    if n == 0 then cursor else MoveCursor(UpFrom(cursor, count, n - 1), count, true, false)
  }

  lemma {:induction false} UpCount(count: int, n: nat)
    requires count >= 1
    ensures UpFrom(-1, count, n) == (if n - 1 < count - 1 then n - 1 else count - 1)
  {
    if n > 0 {
      UpCount(count, n - 1);
    }
  }

  /** The hour and minute `HandleSetTimeCommand` (lines 197-213) accepts: a
      text of two parts around one ':', each an integer, the hour below 24
      and the minute below 60. A negative value passes these tests. */
  function ParseTimeAsWritten(timeStr: string): Option<(int, int)>
  {
    var values := SplitOn(timeStr, ':');
    if |values| != 2 then None
    else
      var hour := TryParseInt(values[0]);
      if hour.None? || hour.value >= 24 then None
      else
        var minute := TryParseInt(values[1]);
        if minute.None? || minute.value >= 60 then None
        else Some((hour.value, minute.value))
  }

  /** The checks as evidently intended: the hour in `0 .. 23` and the
      minute in `0 .. 59`, the ranges the `DateTime` constructor takes. */
  function ParseTime(timeStr: string): (r: Option<(int, int)>)
    ensures r.Some? ==> 0 <= r.value.0 < 24 && 0 <= r.value.1 < 60
  {
    var values := SplitOn(timeStr, ':');
    if |values| != 2 then None
    else
      var hour := TryParseInt(values[0]);
      if hour.None? || hour.value < 0 || hour.value >= 24 then None
      else
        var minute := TryParseInt(values[1]);
        if minute.None? || minute.value < 0 || minute.value >= 60 then None
        else Some((hour.value, minute.value))
  }

  /** Two digit strings around a ':' parse as those numbers exactly when
      they are within range. */
  lemma ParseTimeParts(h: string, m: string)
    requires IsDigits(h) && IsDigits(m)
    ensures var r := ParseTime(h + ":" + m);
      (DecimalValue(h) < 24 && DecimalValue(m) < 60 <==> r.Some?)
      && (r.Some? ==> r.value == (DecimalValue(h), DecimalValue(m)))
  {
    DigitsNoColon(h);
    SplitNone(h, ':');
    SplitAppend(h, ':', m);
    DigitsParse(h);
    DigitsParse(m);
    assert h + ":" + m == h + [':'] + m;
  }

  /** A digit string parses as its value when that fits in 32 bits. */
  lemma DigitsParse(s: string)
    requires IsDigits(s)
    ensures DecimalValue(s) >= 0 && ':' !in s
    ensures TryParseInt(s) == if IsInt32(DecimalValue(s)) then Some(DecimalValue(s)) else None
  {
    DigitsNoColon(s);
    NoWhiteEnds(s);
    DigitsBound(s);
  }

  lemma DigitsNoColon(s: string)
    requires IsDigits(s)
    ensures ':' !in s && |s| >= 1 && s[0] != '-' && s[0] != '+'
  {
  }

  /** The value of a digit string is never negative. */
  lemma {:induction false} DigitsBound(s: string)
    requires IsDigits(s)
    ensures DecimalValue(s) >= 0
  {
    if |s| > 1 {
      var init := s[..|s| - 1];
      assert IsDigits(init) by {
        assert forall k :: 0 <= k < |init| ==> init[k] == s[k];
      }
      DigitsBound(init);
    } else {
      assert s[..0] == [];
    }
  }

  /** A text without exactly one ':' is refused, and what the intended
      checks accept the checks as written accept too. */
  lemma ParseTimeRefuses(timeStr: string)
    ensures |SplitOn(timeStr, ':')| != 2 ==> ParseTime(timeStr).None?
    ensures ParseTime(timeStr).Some? ==> ParseTimeAsWritten(timeStr) == ParseTime(timeStr)
  {
  }

  /** A negative hour such as in "-1:30" passes the checks as written, so
      `new DateTime` is called with it and throws instead of logging the
      format message; with the intended checks it is refused. */
  lemma NegativeHourFinding()
    ensures ParseTimeAsWritten("-1:30") == Some((-1, 30))
    ensures ParseTime("-1:30").None?
  {
    SampleSplit();
    SampleNumbers();
  }

  lemma SampleSplit()
    ensures SplitOn("-1:30", ':') == ["-1", "30"]
  {
    var a, b := "-1", "30";
    assert ':' !in a && ':' !in b;
    assert "-1:30" == a + [':'] + b;
    SplitTwo(a, ':', b);
  }

  lemma SampleNumbers()
    ensures TryParseInt("-1") == Some(-1) && TryParseInt("30") == Some(30)
  {
    assert "-1"[1..] == "1";
    assert DecimalValue("1") == 1 by {
      assert "1"[..0] == [];
    }
    assert DecimalValue("30") == 30 by {
      assert "30"[..1] == "3";
      assert "3"[..0] == [];
    }
  }

  /** The game time after `settime` (lines 215-221): the same date and
      second, at the hour and minute given. */
  function SetTimeOfDay(gameTime: DateTime, hour: int, minute: int): DateTime
  {
    Date(gameTime) + hour * SecondsPerHour + minute * SecondsPerMinute + Second(gameTime)
  }

  lemma SetTimeOfDayFields(gameTime: DateTime, hour: int, minute: int)
    requires 0 <= hour < 24 && 0 <= minute < 60
    ensures var t := SetTimeOfDay(gameTime, hour, minute);
      Hour(t) == hour && Minute(t) == minute && Second(t) == Second(gameTime) && Date(t) == Date(gameTime)
  {
    TimeOfDay(gameTime);
    FieldsOf(Date(gameTime), hour, minute, Second(gameTime));
  }

  /** The player-preferences key of the startup commands. */
  const StartupKey := "dbg_startup_commands"

  /** The console's state: `history` and `currentHistoryEntry`, the text of
      the input field, the game time the console sets and the startup
      commands stored in the player preferences, if any. */
  class DeveloperConsole {
    var history: seq<string>
    var currentHistoryEntry: int
    var input: string
    var gameTime: DateTime
    var startupCommands: Option<string>

    /** The cursor is `-1` or an entry of the history. */
    ghost predicate Valid()
      reads this
    {
      -1 <= currentHistoryEntry < |history|
    }

    /** `Initialize` (lines 37-46): an empty history, the cursor at `-1`. */
    constructor (gameTime: DateTime, startupCommands: Option<string>)
      ensures history == [] && currentHistoryEntry == -1 && input == ""
      ensures this.gameTime == gameTime && this.startupCommands == startupCommands && Valid()
    {
      history := [];
      currentHistoryEntry := -1;
      input := "";
      this.gameTime := gameTime;
      this.startupCommands := startupCommands;
    }

    /** `RunImpl` (lines 145-156): the cursor goes back to `-1`, and a
        non-empty command is added to the history. Running the command
        itself is `CommandDispatch`'s part. */
    method RunImpl(rawCmd: string)
      modifies this
      ensures currentHistoryEntry == -1 && Valid()
      ensures history == if rawCmd == "" then old(history) else old(history) + [rawCmd]
      ensures input == old(input) && gameTime == old(gameTime) && startupCommands == old(startupCommands)
    {
      currentHistoryEntry := -1;
      if rawCmd == "" {
        return;
      }
      history := history + [rawCmd];
    }

    /** `Update` (lines 73-114) for one frame: nothing happens unless a key
        went down, the history is not empty and the input field is
        selected; then the arrow keys move the cursor and the input field
        shows the entry under it. */
    method Update(anyKeyDown: bool, inputSelected: bool, up: bool, down: bool)
      modifies this
      ensures history == old(history) && gameTime == old(gameTime) && startupCommands == old(startupCommands)
      ensures !anyKeyDown || |history| == 0 || !inputSelected ==>
        currentHistoryEntry == old(currentHistoryEntry) && input == old(input)
      ensures anyKeyDown && |history| > 0 && inputSelected ==>
        currentHistoryEntry == MoveCursor(old(currentHistoryEntry), |history|, up, down)
      ensures anyKeyDown && |history| > 0 && inputSelected && (up || down) ==>
        Valid() && input == Shown(history, currentHistoryEntry)
      ensures !up && !down ==> input == old(input)
      ensures old(Valid()) ==> Valid()
    {
      if !anyKeyDown || |history| == 0 || !inputSelected {
        return;
      }
      var update := false;
      if up {
        update := true;
        currentHistoryEntry := ClampInt(currentHistoryEntry + 1, -1, |history| - 1);
      }
      if down {
        update := true;
        currentHistoryEntry := ClampInt(currentHistoryEntry - 1, -1, |history| - 1);
      }
      if update {
        if currentHistoryEntry == -1 {
          input := "";
        } else {
          input := history[|history| - 1 - currentHistoryEntry];
        }
      }
    }

    /** `HandleSetTimeCommand` (lines 195-223), with the intended range
        checks: a well-formed time moves the game time to that hour and
        minute of the same day; anything else leaves it. */
    method HandleSetTimeCommand(timeStr: string)
      modifies this`gameTime
      ensures ParseTime(timeStr).None? ==> gameTime == old(gameTime)
      ensures ParseTime(timeStr).Some? ==>
        gameTime == SetTimeOfDay(old(gameTime), ParseTime(timeStr).value.0, ParseTime(timeStr).value.1)
      ensures ParseTime(timeStr).Some? ==>
        Hour(gameTime) == ParseTime(timeStr).value.0 && Minute(gameTime) == ParseTime(timeStr).value.1
        && Date(gameTime) == Date(old(gameTime)) && Second(gameTime) == Second(old(gameTime))
    {
      var values := SplitOn(timeStr, ':');
      if |values| != 2 {
        return;
      }
      var hour := TryParseInt(values[0]);
      if hour.None? || hour.value < 0 || hour.value >= 24 {
        return;
      }
      var minute := TryParseInt(values[1]);
      if minute.None? || minute.value < 0 || minute.value >= 60 {
        return;
      }
      SetTimeOfDayFields(gameTime, hour.value, minute.value);
      gameTime := SetTimeOfDay(gameTime, hour.value, minute.value);
    }

    /** `HandleAddStartupCommandCommand` (lines 357-375): the command run
        before this one (the last entry being this command itself) is
        added to the stored startup commands, after a ';' if there are
        some; with fewer than two entries nothing is stored. */
    method HandleAddStartupCommandCommand()
      modifies this`startupCommands
      ensures |history| < 2 ==> startupCommands == old(startupCommands)
      ensures |history| >= 2 ==> startupCommands == Some(AppendStartup(old(startupCommands), history[|history| - 2]))
    {
      if |history| < 2 {
        return;
      }
      if startupCommands.Some? {
        startupCommands := Some(startupCommands.value + ";" + history[|history| - 2]);
      } else {
        startupCommands := Some(history[|history| - 2]);
      }
    }
  }

  /** The stored startup commands with one more. */
  function AppendStartup(stored: Option<string>, cmd: string): string
  {
    if stored.Some? then stored.value + ";" + cmd else cmd
  }

  /** Commands added one after another, none holding a ';', are read back
      in order by splitting the stored text at ';'. */
  lemma {:induction false} StartupCommandsSplit(cmds: seq<string>)
    requires |cmds| >= 1 && forall i :: 0 <= i < |cmds| ==> ';' !in cmds[i]
    ensures SplitOn(StoreAll(cmds), ';') == cmds
  {
    StoreAllJoins(cmds);
    SplitJoinWords(cmds, ';');
  }

  /** The stored text is the commands joined by ';'. */
  lemma {:induction false} StoreAllJoins(cmds: seq<string>)
    requires |cmds| >= 1
    ensures StoreAll(cmds) == JoinWith(cmds, ';')
  {
    if |cmds| > 1 {
      StoreAllJoins(cmds[..|cmds| - 1]);
    }
  }

  /** The text stored after adding each command in turn to no stored
      commands. */
  function StoreAll(cmds: seq<string>): string
    requires |cmds| >= 1
  {
    if |cmds| == 1 then AppendStartup(None, cmds[0])
    else AppendStartup(Some(StoreAll(cmds[..|cmds| - 1])), cmds[|cmds| - 1])
  }
}
