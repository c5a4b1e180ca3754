# Transidious: a verified model of the simulation core

Transidious is a Unity game about a city and its transit: streets with lanes, intersections
and traffic lights, citizens who have schedules, jobs and money, transit lines and their
timetables, and the player's finances and missions. This project models the game's
discrete logic in Dafny and proves what that logic promises. The logic covered is:

- **Data structures changed in place**: the editor's undo/redo stacks, the bounded object
  pools, the set of unlocked items, the snap registry, the sorted doubly linked car list of
  each lane, the intersection occupancy word (sixteen 4-bit counters), the slot grid of
  the transit map, the planar straight-line graph handed to the triangulator, and the
  merging and chunking of map meshes.
- **State machines**: the traffic-light phase cycle, the status of an objective, and the
  developer console's history cursor.
- **Tables and arithmetic**: lane numbering and mirroring, turn classification and the
  conflict table, the traffic factor by hour, building capacities, occupation by age,
  taxes, finance bookkeeping, timetable day and night windows with the weekday flags, unit
  conversions, and the compass-direction algebra.
- **Parsers and formatters**: the console command parser generated by the table
  generator, the first-name table reader, integer and clock-time text, and the area
  import script's replacement of a `def` block in the table file.
- **Graph search**: the A* search over stops and routes, and the rebuilding of a path's
  timeline.

Each source file has its own module, in the file named after it; the command parser has
two (`Commands` for the tokenizer, `CommandDispatch` for the rest). Classes stand for the
objects whose fields the game updates. Their methods are proved against a
specification function or predicate, and lemmas then prove what the game promises about
those functions. A few helper modules stand for .NET behaviour:

- `CSharpInt`: C#'s truncating `%`, 32-bit wrap-around and shifts;
- `DateTimes`: `DateTime` and `TimeSpan` in whole seconds;
- `DecimalText`: decimal digits and `int.TryParse` with the white space and sign that `NumberStyles.Integer` allows;
- `Texts`: `string.Split`;
- `Geometry`: vectors over `real`;
- `Wrappers`: `Option` and `Result`.

Floating-point values are `real` throughout. Random draws, the game clock, map queries and
Unity objects are parameters or plain values.

## Model

| member | source | states |
|---|---|---|
| Units.RoundToInterval | Assets/Scripts/Utility/Units.cs:154-157 | the rounded span is a whole number of intervals, at least the span and less than one interval above it |
| Units.RoundToIntervalLeast | Assets/Scripts/Utility/Units.cs:154-157 | no smaller multiple of the interval reaches the span, so rounding goes to the nearest multiple at or above it |
| Units.MultiplyLinear | Assets/Scripts/Utility/Units.cs:149-152 | a span scaled by one is itself, scaling twice multiplies the factors, and scaling distributes over the sum of two spans |
| Units.KilometersRoundTrip | Assets/Scripts/Utility/Units.cs:174-189 | a distance given in kilometers holds a thousand times as many meters and reads back as the same kilometers, both ways round |
| Units.DistanceArithmetic | Assets/Scripts/Utility/Units.cs:203-213 | subtraction undoes addition on distances, both ways round, and addition commutes |
| Units.KphRoundTrip | Assets/Scripts/Utility/Units.cs:241-254 | the two conversion factors are inverses, so speeds in km/h survive the round trip through m/s, both ways round |
| Units.RealTimeRoundTrip | Assets/Scripts/Utility/Units.cs:223-257 | real-time speeds in m/s and km/h read back as given, and a velocity survives the round trip through its real-time value |
| Units.TravelTimeConsistent | Assets/Scripts/Utility/Units.cs:191-201 | driving for the travel time covers the distance, and distance over a time is a speed that covers it in exactly that time |
| Units.VelocityArithmetic | Assets/Scripts/Utility/Units.cs:259-287 | velocity arithmetic acts on meters per second: subtraction undoes addition and division undoes scaling |
| Units.AccelerationArithmetic | Assets/Scripts/Utility/Units.cs:297-343 | real-time accelerations round-trip, the speed gained is linear in the acceleration, subtraction undoes addition and division undoes scaling |
| DateTimes.MinuteOfDay | Assets/Scripts/Utility/GameObjectExtensions.cs:116-119 | the minute of the day lies in 0..1439 |
| DateTimes.MinuteOfDayElapsed | Assets/Scripts/Utility/GameObjectExtensions.cs:116-119 | the minute of the day counts the whole minutes since the date's midnight |
| Extensions.Dictionary.GetOrPutDefault | Assets/Scripts/Utility/GameObjectExtensions.cs:15-26 | a present key yields its value and leaves the dictionary alone; a missing key is stored with the default, which is returned |
| Extensions.Dictionary.GetOrPutProvided | Assets/Scripts/Utility/GameObjectExtensions.cs:28-41 | as above, with the provider's value stored and returned only when the key is missing |
| Extensions.SecondToLast | Assets/Scripts/Utility/GameObjectExtensions.cs:43-46 | a list of at least two elements gives an element of the list; a shorter one throws, which is `None` |
| Extensions.SecondToLastAppend | Assets/Scripts/Utility/GameObjectExtensions.cs:43-46 | after appending an element, the former last element is the second to last |
| Extensions.TryGet | Assets/Scripts/Utility/GameObjectExtensions.cs:48-51 | the result is an element of the list or the default; exactly a negative index throws, which is `None` |
| Extensions.TryGetInsideAndPast | Assets/Scripts/Utility/GameObjectExtensions.cs:48-51 | inside the list the result is the indexed element, unchanged by extending the list; past its end it is the default |
| Extensions.GetWeekdayFlag | Assets/Scripts/Utility/GameObjectExtensions.cs:121-143 | the flag of a date holds exactly its day of the week, so two dates share a flag exactly when they share a weekday |
| Extensions.DayFlagPow2 | Assets/Scripts/Utility/GameObjectExtensions.cs:121-143 | each single-day flag is the power of two of its day number |
| Extensions.AddDaysRotates | Assets/Scripts/Utility/GameObjectExtensions.cs:145-158 | for a non-negative count, adding days moves a single-day flag that many days around the week |
| Extensions.AddDaysBackwardsLosesDay | Assets/Scripts/Utility/GameObjectExtensions.cs:145-158 | for a negative count that is not a whole number of weeks, the C# shifts leave no day set at all |
| Extensions.AddDaysSameRemainder | Assets/Scripts/Utility/GameObjectExtensions.cs:145-147 | only the C# remainder of the day count by 7 matters |
| Extensions.AddDaysZero | Assets/Scripts/Utility/GameObjectExtensions.cs:145-158 | adding no days gives back any weekday set |
| Extensions.AddDaysWholeWeeks | Assets/Scripts/Utility/GameObjectExtensions.cs:145-158 | adding whole weeks, forwards or backwards, gives back any weekday set |
| UndoStack.AfterUndo | Assets/Scripts/Utility/UndoStack.cs:74-82 | undo moves the top action of the undo stack onto the redo stack, leaving the rest of both in place |
| UndoStack.AfterRedo | Assets/Scripts/Utility/UndoStack.cs:85-93 | redo moves the top action of the redo stack onto the undo stack, leaving the rest of both in place |
| UndoStack.PushThenUndo | Assets/Scripts/Utility/UndoStack.cs:47-82 | undoing a push gives the old undo stack back and leaves the pushed action redoable on top of the redo history, which a consistent stack keeps and an inconsistent one has cleared |
| UndoStack.UndoThenRedo | Assets/Scripts/Utility/UndoStack.cs:74-93 | an undo followed by a redo restores both stacks exactly |
| UndoStack.RedoThenUndo | Assets/Scripts/Utility/UndoStack.cs:74-93 | a redo followed by an undo restores both stacks exactly |
| UndoStack.UndoStack.constructor | Assets/Scripts/Utility/UndoStack.cs:39-44 | a new history is empty and keeps the consistency flag |
| UndoStack.UndoStack.PushAndExecute | Assets/Scripts/Utility/UndoStack.cs:47-58 | the action runs once and the stacks become the pushed state |
| UndoStack.UndoStack.PushNoExecute | Assets/Scripts/Utility/UndoStack.cs:61-65 | the action is pushed without running and the redo stack is kept |
| UndoStack.UndoStack.Undo | Assets/Scripts/Utility/UndoStack.cs:74-82 | the top action is reverted and the stacks become the undone state; an empty undo stack is refused, as the source asserts |
| UndoStack.UndoStack.Redo | Assets/Scripts/Utility/UndoStack.cs:85-93 | the top redo action runs again and the stacks become the redone state; an empty redo stack is refused, as the source asserts |
| Progress.FromOrdinalOfOrdinal | Assets/Scripts/Progress.cs:10-31 | every item is the cast of its own ordinal |
| Progress.Progress.constructor | Assets/Scripts/Progress.cs:38-41 | a new progress has nothing unlocked |
| Progress.Progress.UnlockAll | Assets/Scripts/Progress.cs:44-50 | afterwards every item is unlocked |
| Progress.Progress.Unlock | Assets/Scripts/Progress.cs:53-56 | the item is added, and the result is true exactly when it was not unlocked before |
| ResourceManagers.TakeKeeps | Assets/Scripts/ResourceManager.cs:60-107 | a get keeps the pool's unused instances distinct and existing; it hands out an existing instance no longer unused, or a new one; it fails exactly when nothing is unused, the take is not forced and the limit is reached |
| ResourceManagers.ReclaimThenTake | Assets/Scripts/ResourceManager.cs:81-114 | giving back an instance in use keeps the pool valid, and the next get hands out that same instance and restores the pool |
| ResourceManagers.RunPoolWithinLimit | Assets/Scripts/ResourceManager.cs:60-114 | with no forced gets, a pool that starts within its limit stays within it, whatever is given back and in whatever order |
| ResourceManagers.Pool.constructor | Assets/Scripts/ResourceManager.cs:45-57 | a new pool is empty, valid and has the given limit |
| ResourceManagers.Pool.Get | Assets/Scripts/ResourceManager.cs:60-107 | the result and the new stack and count are those of one take, and validity is kept |
| ResourceManagers.Pool.Reclaim | Assets/Scripts/ResourceManager.cs:81-114 | the instance is pushed with the count unchanged; giving back an instance in use keeps the pool valid |
| ResourceManagers.ResourceManager.constructor | Assets/Scripts/ResourceManager.cs:45-57 | `Awake`: both pools start empty, with limits of 10000 active paths and 10 temporary sprites |
| ResourceManagers.ResourceManager.GetActivePath | Assets/Scripts/ResourceManager.cs:60-78 | one take from the active-path pool, which stays valid |
| ResourceManagers.ResourceManager.ReclaimPath | Assets/Scripts/ResourceManager.cs:81-85 | the path goes back on the unused stack of the active-path pool |
| ResourceManagers.ResourceManager.GetTemporarySprite | Assets/Scripts/ResourceManager.cs:88-107 | one take from the sprite pool, which stays valid |
| ResourceManagers.ResourceManager.ReclaimSprite | Assets/Scripts/ResourceManager.cs:110-114 | the sprite goes back on the unused stack of the sprite pool |
| Translator.ItemsOfLookup | Assets/Scripts/Localization/Translator.cs:55-74 | the table built from the entries holds exactly their keys, each with its own text |
| Translator.Translator.constructor | Assets/Scripts/Localization/Translator.cs:55-74 | a new translator holds the table built from the language's entries |
| Translator.Translator.Translate | Assets/Scripts/Localization/Translator.cs:94-107 | a known key gives its text; a missing key gives the key itself in a debug build and the empty text otherwise |
| Translator.TranslateLoaded | Assets/Scripts/Localization/Translator.cs:55-107 | with distinct keys, a loaded translator finds every entry's text under its key |
| Translator.Translator.Get | Assets/Scripts/Localization/Translator.cs:131-142 | the translated text with `$0`, `$1`, … replaced in turn by the arguments |
| Translator.ReplaceAbsent | Assets/Scripts/Localization/Translator.cs:138 | a text without the pattern is left as it is |
| Translator.ReplaceSkipsPrefix | Assets/Scripts/Localization/Translator.cs:138 | a prefix in which no occurrence of the pattern starts is copied through unchanged |
| Translator.ReplaceOne | Assets/Scripts/Localization/Translator.cs:138 | a text holding the pattern exactly once gets that occurrence replaced and nothing else changed |
| Translator.SubstituteSingle | Assets/Scripts/Localization/Translator.cs:131-142 | a text with one `$0` and no other `$` gets its single argument in that place |
| Translator.PlaceholderPrefix | Assets/Scripts/Localization/Translator.cs:136-139 | `$1` is a prefix of `$10`, so with eleven or more arguments the replacement of `$1` also eats the start of every `$10` |
| Translator.AppendInteger | Assets/Scripts/Localization/Translator.cs:144-169 | the decimal digits of the value are appended, with the separator between groups of three when one is given (a separator of several characters comes out reversed) |
| Translator.ReversedDigits | Assets/Scripts/Localization/Translator.cs:146-166 | the digit loop leaves the digits least significant first, with the separator after every third digit when more digits follow |
| Translator.GroupedWithoutSeparator | Assets/Scripts/Localization/Translator.cs:144-169 | with an empty separator the grouped text is just the digits |
| Translator.RevTextGrouped | Assets/Scripts/Localization/Translator.cs:150-168 | the reversed digit buffer is the grouped digits, with the separator reversed |
| Translator.RevTextBelowThousand | Assets/Scripts/Localization/Translator.cs:162-165 | below 1000 no separator is written |
| Translator.SingleReversed | Assets/Scripts/Localization/Translator.cs:168 | a one-character separator comes out as given |
| Translator.DisplayHour | Assets/Scripts/Localization/Translator.cs:305-315 | the hour shown lies in 0..23 |
| Translator.DisplayHourClock | Assets/Scripts/Localization/Translator.cs:305-315 | on a 12-hour clock the hour shown runs from 1 to 12 and agrees with the hour modulo 12; on a 24-hour clock it is the hour itself |
| Translator.TwoDigitsValue | Assets/Scripts/Localization/Translator.cs:317-340 | two digits are written that read back as the number |
| Translator.TimeTextLayout | Assets/Scripts/Localization/Translator.cs:298-354 | the time text is a two-digit hour, ':', a two-digit minute, then " AM" exactly for a morning hour when the format has AM, and " PM" exactly for an afternoon hour when it has PM |
| Translator.FormatTimeNoonAndMidnight | Assets/Scripts/Localization/Translator.cs:305-315 | the source's 12-hour clock writes noon as "00" and its 24-hour clock writes midnight as "12"; the corrected text writes "12" and "00" |
| Translator.FormatTime | Assets/Scripts/Localization/Translator.cs:298-354 | the time text is written into the start of the buffer and the rest of it is left alone |
| Translator.WriteTwoDigits | Assets/Scripts/Localization/Translator.cs:317-340 | the two digits land at the index and nothing else changes |
| Translator.WriteSuffix | Assets/Scripts/Localization/Translator.cs:342-353 | the AM/PM suffix lands at the index and nothing else changes |
| Translator.FormatTimeString | Assets/Scripts/Localization/Translator.cs:290-296 | a buffer of the language's maximum length holds the time text followed by `'\0'` |
| Translator.CurrencyPlusSign | Assets/Scripts/Localization/Translator.cs:242-264 | a '+' is prefixed exactly to positive amounts when asked for and changes nothing else; the number stays beside the symbol on the configured side |
| Commands.Emit | TblGen/Backends/Commands.template.cs:69-80 | a finished token leaves the lexer ready for the next one, with no pending name, text or quote |
| Commands.RunFailed | TblGen/Backends/Commands.template.cs:49-54 | once the line has been rejected, the rest of it changes nothing |
| Commands.ParseTokens | TblGen/Backends/Commands.template.cs:18-81 | the character loop yields the tokens of the line, with a quote ending at the next '"' |
| Commands.WordRun | TblGen/Backends/Commands.template.cs:61-65 | a word without spaces, quotes or '=' is added to the token being read |
| Commands.QuotedRun | TblGen/Backends/Commands.template.cs:39-48 | inside quotes, text without a quote is added to the token as it is, spaces and '=' included |
| Commands.RunLine | TblGen/Backends/Commands.template.cs:26-81 | after a line of words, every word but the last is a finished token and the last is the one being read |
| Commands.TokenizeWords | TblGen/Backends/Commands.template.cs:26-81 | a line of words gives its first word as the command and the others as values by position, in order |
| Commands.TokenizeNamed | TblGen/Backends/Commands.template.cs:49-79 | `name=value` gives a value under that name |
| Commands.TokenizeMisplacedEquals | TblGen/Backends/Commands.template.cs:49-54 | an '=' in the command name or at the start of a value rejects the line |
| Commands.OpenQuote | TblGen/Backends/Commands.template.cs:36-41 | after a word, a space and a '"', the command is set and a quoted part has begun |
| Commands.QuotedThenSpace | TblGen/Backends/Commands.template.cs:39-48 | quoted text followed by a '"' and a space is read as the text, then those two characters |
| Commands.TokenizeQuoteAsWritten | TblGen/Backends/Commands.template.cs:39-48 | as written, the closing '"' is read again and reopens the quote, so a quoted value swallows the rest of the line, spaces included |
| Commands.TokenizeQuote | TblGen/Backends/Commands.template.cs:39-48 | with the closing '"' ending the quoted part, a quoted value keeps its spaces and the next word is a value of its own |
| DecimalText.Digits | Assets/Scripts/Utility/NameGenerator.cs:73 | the decimal text of a number has at least one digit |
| DecimalText.DigitsDecimal | Assets/Scripts/Utility/NameGenerator.cs:73 | the decimal text of a number has only digits and no leading zero except for 0, and reads back as the number |
| DecimalText.TryParseInt | TblGen/Backends/Commands.template.cs:150 | every value `int.TryParse` accepts fits in 32 bits |
| DecimalText.TryParseIntWhite | TblGen/Backends/Commands.template.cs:150 | white space before and after the number changes nothing, as `NumberStyles.Integer` allows |
| DecimalText.TryParseIntDigits | Assets/Scripts/Utility/NameGenerator.cs:73 | the decimal text of every 32-bit value, with a minus sign for the negative ones, reads back as that value |
| CommandDispatch.FirstUnassigned | TblGen/Backends/Commands.template.cs:123-129 | the first declared parameter without a value, or none exactly when every parameter has one |
| CommandDispatch.AssignParams | TblGen/Backends/Commands.template.cs:90-136 | the loop over the values gives the dictionary and log of the assignment rules |
| CommandDispatch.AssignValue | TblGen/Backends/Commands.template.cs:93-135 | one value: by name to its parameter, ignored with a log under an unknown name, by position to the first unassigned parameter |
| CommandDispatch.FirstUnassignedIndex | TblGen/Backends/Commands.template.cs:123-129 | the index found is the first unassigned parameter, or the parameter count when all are assigned |
| CommandDispatch.DuplicateSticks | TblGen/Backends/Commands.template.cs:115-127 | once a parameter has been given twice, `Dictionary.Add` throws and the loop ends: the later values change nothing, not even the log |
| CommandDispatch.DuplicateLog | TblGen/Backends/Commands.template.cs:110-115 | when `Dictionary.Add` throws it is at a named value whose parameter already has one, and the messages logged before it stay in the log |
| CommandDispatch.PositionalFillsInOrder | TblGen/Backends/Commands.template.cs:118-135 | with the corrected rule, values by position fill the parameters in declared order, and each value beyond them is logged and ignored |
| CommandDispatch.FillUnassignedAll | TblGen/Backends/Commands.template.cs:123-129 | as written, every parameter still missing gets the value, and assigned ones keep theirs |
| CommandDispatch.PositionalFillsAllAsWritten | TblGen/Backends/Commands.template.cs:118-135 | as written, the first value by position goes to every parameter, and every later one is logged and ignored |
| CommandDispatch.NamedAfterPositional | TblGen/Backends/Commands.template.cs:115 | a named value for a parameter that already has one, even from a value by position, makes `Dictionary.Add` throw |
| CommandDispatch.UnknownNamesIgnored | TblGen/Backends/Commands.template.cs:93-116 | values named after no parameter are each logged and leave the dictionary empty |
| CommandDispatch.BindParams | TblGen/Backends/Commands.template.cs:138-173 | the loop over the parameters gives the binding of the reference definition |
| CommandDispatch.Lookup | TblGen/Backends/Commands.template.cs:139-146 | a parameter has no text exactly when it has no value and an empty default |
| CommandDispatch.BindMatchesReference | TblGen/Backends/Commands.template.cs:138-173 | with distinct parameter names, the loop that stores each default before reading it back converts the same texts as the reference definition |
| CommandDispatch.BindRefBound | TblGen/Backends/Commands.template.cs:138-177 | the handler is called exactly when every parameter has a text that converts, and then with the converted texts in declared order |
| CommandDispatch.BindRefFirstFailure | TblGen/Backends/Commands.template.cs:139-168 | the first parameter without a text, or whose text does not convert, stops the parser with its own message |
| CommandDispatch.FindCommand | TblGen/Backends/Commands.template.cs:85-88 | the switch picks the first record of that name, or none when no record has it |
| CommandDispatch.ParseCommand | TblGen/Backends/Commands.template.cs:18-186 | the whole parser yields the log and outcome of the corrected console definition, including the messages logged before a repeated parameter throws |
| CommandDispatch.ExecuteUnknownCommand | TblGen/Backends/Commands.template.cs:83-85 | an empty line, or a first word naming no command, logs "unknown command" and runs nothing (with lines 183-185) |
| CommandDispatch.ExecuteMisplacedEquals | TblGen/Backends/Commands.template.cs:49-54 | a misplaced '=' logs "unexpected character" and runs nothing |
| CommandDispatch.ExecuteWordsBinding | TblGen/Backends/Commands.template.cs:118-146 | for a known command, the words after it are the texts of the first parameters and the rest have their defaults |
| CommandDispatch.ExecuteWordsHandled | TblGen/Backends/Commands.template.cs:118-177 | a known command given a convertible text for each parameter is run with the converted texts; extra words are logged and ignored |
| CommandDispatch.ExecuteWordsMissing | TblGen/Backends/Commands.template.cs:139-143 | a known command given too few texts stops at the first parameter without a default, with "missing parameter" |
| CommandDispatch.ExecuteWordsBadInteger | TblGen/Backends/Commands.template.cs:149-155 | a text for an `int` parameter that `int.TryParse` refuses stops the parser with "expects integer for argument #k" |
| CommandDispatch.GetCommandList | TblGen/Backends/Commands.template.cs:189-201 | the list is the command names in record order, joined by single spaces |
| CommandDispatch.CommandListSplits | TblGen/Backends/Commands.template.cs:189-201 | when no command name holds a space, cutting the list at its spaces gives back the names in order |
| CommandDispatch.GetHelp | TblGen/Backends/Commands.template.cs:203-213 | the help text of the command the switch would pick, or "unknown command" and the name when there is none |
| Texts.SplitJoin | Assets/Scripts/UI/DeveloperConsole.cs:197 | `string.Split` loses nothing: the parts hold no separator and joining them by it gives the text back |
| Texts.SplitNone | Assets/Scripts/UI/DeveloperConsole.cs:197 | a text without the separator is a single part |
| Texts.SplitAppend | Assets/Scripts/UI/DeveloperConsole.cs:197 | a separator and a part after a text add that part after the text's parts |
| Texts.SplitJoinWords | Assets/Scripts/GameController.cs:304-306 | parts without the separator, joined by it, split back into the same parts |
| DeveloperConsoles.ClampInt | Assets/Scripts/UI/DeveloperConsole.cs:94-100 | `Mathf.Clamp` keeps a value inside the range and leaves one already inside alone |
| DeveloperConsoles.MoveCursor | Assets/Scripts/UI/DeveloperConsole.cs:90-101 | after an arrow key the cursor lies in `-1 .. count - 1`; without one it stays |
| DeveloperConsoles.CursorInverse | Assets/Scripts/UI/DeveloperConsole.cs:90-101 | down undoes up and up undoes down away from the ends of the history; both keys at once move down only from the oldest entry |
| DeveloperConsoles.UpPresses | Assets/Scripts/UI/DeveloperConsole.cs:90-112 | pressing up `k + 1` times from the empty input shows the `k`-th most recent command, and pressing past the oldest stays on it |
| DeveloperConsoles.ParseTime | Assets/Scripts/UI/DeveloperConsole.cs:197-212 | an accepted time has an hour in 0..23 and a minute in 0..59 |
| DeveloperConsoles.ParseTimeParts | Assets/Scripts/UI/DeveloperConsole.cs:197-212 | two digit strings around a ':' are accepted exactly when they are within range, and then as those numbers |
| DeveloperConsoles.ParseTimeRefuses | Assets/Scripts/UI/DeveloperConsole.cs:197-202 | a text without exactly one ':' is refused, and the intended checks accept nothing the checks as written refuse |
| DeveloperConsoles.NegativeHourFinding | Assets/Scripts/UI/DeveloperConsole.cs:204-213 | "-1:30" passes the checks as written, so `new DateTime` would throw; the intended checks refuse it |
| DeveloperConsoles.SetTimeOfDayFields | Assets/Scripts/UI/DeveloperConsole.cs:215-221 | the new time has the hour and minute given and keeps the date and the second |
| DeveloperConsoles.DeveloperConsole.constructor | Assets/Scripts/UI/DeveloperConsole.cs:37-46 | `Initialize`: the history is empty and the cursor is at `-1` |
| DeveloperConsoles.DeveloperConsole.RunImpl | Assets/Scripts/UI/DeveloperConsole.cs:145-156 | the cursor goes back to `-1`, and a non-empty command is added to the end of the history |
| DeveloperConsoles.DeveloperConsole.Update | Assets/Scripts/UI/DeveloperConsole.cs:73-114 | nothing changes unless a key went down, the history is not empty and the input is selected; then the cursor moves and the input shows the entry under it, and without an arrow key the input is kept |
| DeveloperConsoles.DeveloperConsole.HandleSetTimeCommand | Assets/Scripts/UI/DeveloperConsole.cs:195-223 | a well-formed time sets the game time to that hour and minute of the same day, keeping the second; anything else leaves it |
| DeveloperConsoles.DeveloperConsole.HandleAddStartupCommandCommand | Assets/Scripts/UI/DeveloperConsole.cs:357-375 | the command run before this one is added to the stored startup commands, after a ';' when some are stored; with fewer than two entries nothing changes |
| DeveloperConsoles.StartupCommandsSplit | Assets/Scripts/UI/DeveloperConsole.cs:357-375 | commands stored one after another, none holding a ';', are read back in order by splitting at ';' |
| NameGenerator.NameFrom | Assets/Scripts/Utility/NameGenerator.cs:43-47 | the name loop stops at a ',' of the file, never before its start; running off the end is a failure |
| NameGenerator.CountFrom | Assets/Scripts/Utility/NameGenerator.cs:54-71 | the count loop ends at or after its start; reading past the end of the file is a failure |
| NameGenerator.ReadRecord | Assets/Scripts/Utility/NameGenerator.cs:43-75 | a record that is read moves the reader forward |
| NameGenerator.LoadFirstNames | Assets/Scripts/Utility/NameGenerator.cs:29-93 | the loop over the file gives the tables of the record-by-record reader, or failure where it runs past the end |
| NameGenerator.ReadName | Assets/Scripts/Utility/NameGenerator.cs:43-47 | the name loop as a method gives the name loop's result |
| NameGenerator.ReadCount | Assets/Scripts/Utility/NameGenerator.cs:54-71 | the count loop as a method gives the count loop's result |
| NameGenerator.ReadEntry | Assets/Scripts/Utility/NameGenerator.cs:43-75 | one pass of the loop body reads the name up to the comma, the sex letter and the count, giving the record the record-by-record reader defines, or failure where the bytes run out |
| NameGenerator.NameFromWord | Assets/Scripts/Utility/NameGenerator.cs:43-47 | a name without commas followed by ',' is read whole, up to the comma |
| NameGenerator.CountFromDigits | Assets/Scripts/Utility/NameGenerator.cs:54-71 | digits followed by a line end are read as the count, and the loop stops on the line end's '\n' |
| NameGenerator.ReadRecordText | Assets/Scripts/Utility/NameGenerator.cs:43-85 | a readable record is read as its name and count, male exactly when its gender is 'M', wherever it stands in the file |
| NameGenerator.LoadFileText | Assets/Scripts/Utility/NameGenerator.cs:29-93 | records written in the file format, with either line end, are read back as the tables they describe |
| NameGenerator.UnterminatedRecord | Assets/Scripts/Utility/NameGenerator.cs:54-71 | a record that runs to the end of the file without a line end is not read |
| NameGenerator.LastRecordWithoutLineEnd | Assets/Scripts/Utility/NameGenerator.cs:54-71 | a file whose last record lacks a line end makes the reader index past the end |
| NameGenerator.TablesByGender | Assets/Scripts/Utility/NameGenerator.cs:73-92 | the tables hold each gender's records in file order, and each total is the sum of its table's counts |
| NameGenerator.PickFrom | Assets/Scripts/Utility/NameGenerator.cs:101-110 | the scan stops on a name at or after its start |
| NameGenerator.GetFirstName | Assets/Scripts/Utility/NameGenerator.cs:95-113 | the loop picks the name of the corrected scan (`sum > idx`), or fails where it would index past the end |
| NameGenerator.PickFromInRange | Assets/Scripts/Utility/NameGenerator.cs:101-110 | the corrected scan stops at the name whose range of draws holds `idx` |
| NameGenerator.FirstNameWeighted | Assets/Scripts/Utility/NameGenerator.cs:95-113 | with the corrected test, name `j` is drawn exactly for the draws in its range, so each name's chance is its share of the occurrences |
| NameGenerator.FirstNameAsWritten | Assets/Scripts/Utility/NameGenerator.cs:104 | with `sum >= idx`, two names of one occurrence each both draw the first name; the corrected test draws the second on draw 1 |
| NameGenerator.MaleFirstNameFound | Assets/Scripts/Utility/NameGenerator.cs:115-126 | a draw below the male total always finds a name |
| NameGenerator.FemaleFirstNameFound | Assets/Scripts/Utility/NameGenerator.cs:128-139 | a draw below the female total always finds a name |
| NameGenerator.LoadFile | Assets/Scripts/Utility/NameGenerator.cs:23-27 | the pieces hold no line end and, joined by line ends, give the text back |
| NameGenerator.LoadFileLines | Assets/Scripts/Utility/NameGenerator.cs:23-27 | a list written one name per line is read back as those names |
| NameGenerator.LoadFileFinalLineEnd | Assets/Scripts/Utility/NameGenerator.cs:23-27 | a list ending in a line end has an empty last entry, which `LastName` and `Place` can draw (with lines 141-167) |
| NameGenerator.DrawLine | Assets/Scripts/Utility/NameGenerator.cs:141-167 | the name drawn is an entry of the list |
| NameGenerator.BracketAt | Assets/Scripts/Utility/NameGenerator.cs:195-337 | each bracket's age range is non-empty |
| NameGenerator.FirstBelow | Assets/Scripts/Utility/NameGenerator.cs:195-337 | the bracket chosen is the first whose test `rnd < t` succeeds, or the last one when none does |
| NameGenerator.FirstBelowInterval | Assets/Scripts/Utility/NameGenerator.cs:195-337 | with increasing thresholds, bracket `k` is chosen exactly for draws from the previous threshold up to its own |
| NameGenerator.ThresholdsIncrease | Assets/Scripts/Utility/NameGenerator.cs:173-194 | the thresholds from the table's accumulated shares increase |
| NameGenerator.GenderAndAgeFinding | Assets/Scripts/Utility/NameGenerator.cs:304-311 | as written, no draw gives a woman aged 50 to 54 |
| NameGenerator.GenderAndAgeFifties | Assets/Scripts/Utility/NameGenerator.cs:173-194 | with the intended thresholds, draws from 0.8492 up to 0.8811 give women aged 50 to 54 (with lines 304-311) |
| NameGenerator.GenderAndAgeFiftiesAsWritten | Assets/Scripts/Utility/NameGenerator.cs:304-315 | as written, those draws give women aged 55 to 59 |
| ImportArea.Relations | TblGen/ImportArea.py:18-19 | the results kept are exactly those whose OSM type is "relation", from the list; some are kept exactly when some are relations |
| ImportArea.SelectResult | TblGen/ImportArea.py:18-36 | the result chosen is a relation of the list; there is none exactly when no relation is left or the typed choice is no index of the list (Python counting from the end for negative choices); a single relation is taken without asking |
| ImportArea.RemoveSpaces | TblGen/ImportArea.py:39 | the term holds no space afterwards and is no longer than before |
| ImportArea.RemoveSpacesKeeps | TblGen/ImportArea.py:39 | a term without spaces is unchanged |
| ImportArea.RemoveSpacesIdempotent | TblGen/ImportArea.py:39 | removing the spaces twice is removing them once |
| ImportArea.FindFrom | TblGen/ImportArea.py:96 | `str.find`: the first occurrence from the start index on, or none exactly when there is no occurrence |
| ImportArea.FindDefinitionFrom | TblGen/ImportArea.py:96 | the corrected search: the first `def name` not followed by a character that continues the name, or none exactly when there is none |
| ImportArea.EndFrom | TblGen/ImportArea.py:101-110 | the brace loop ends between its start and the end of the text |
| ImportArea.RemovalEnd | TblGen/ImportArea.py:98-110 | the loop ends where the recursive definition of the brace loop does |
| ImportArea.EndFromStops | TblGen/ImportArea.py:102-110 | from any point of the loop, it ends at the first later place where it may stop |
| ImportArea.RemovalRegion | TblGen/ImportArea.py:98-110 | the removal ends at the first place the loop may stop: the end of the text, the brace matching the first one opened, or a line end before any brace |
| ImportArea.Remove | TblGen/ImportArea.py:112 | the content without the removed slice: what stood before and after it, in order |
| ImportArea.Append | TblGen/ImportArea.py:128-131 | the generated code goes after the content, on a line of its own after a blank line unless the content ends in a line end; empty content raises |
| ImportArea.TableFiles.constructor | TblGen/ImportArea.py:88-90 | the table file holds the content read and no backup is written yet |
| ImportArea.TableFiles.Import | TblGen/ImportArea.py:88-135 | the backup holds the old table file, and the table file becomes the imported one, or stays when the script raises |
| ImportArea.BlockEnd | TblGen/ImportArea.py:101-110 | a block `head { body }` without braces in its parts is removed up to its closing brace |
| ImportArea.ImportReplaces | TblGen/ImportArea.py:96-131 | importing an area whose generated definition is the first definition of that name in the file replaces it: the loop removes it from its `def` to its closing brace, the text before and after it stays, and the new definition goes at the end |
| ImportArea.PrefixNameAsWritten | TblGen/ImportArea.py:96 | as written, the search for "A" stops at the definition of "AB", which the edit deletes; the corrected search finds nothing and keeps the file |
| MathUtil.AbsR | Assets/Scripts/Utility/Math.cs:102 | the magnitude is never negative and is the number or its negation |
| MathUtil.MaxAbs | Assets/Scripts/Utility/Math.cs:100-103 | one of the two arguments, of magnitude at least both, and the first one when the magnitudes are equal |
| MathUtil.MinAbs | Assets/Scripts/Utility/Math.cs:105-108 | one of the two arguments, of magnitude at most both, and the first one when the magnitudes are equal |
| MathUtil.Reverse | Assets/Scripts/Utility/Math.cs:193-208 | the reverse of a direction is another direction |
| MathUtil.ReverseAlgebra | Assets/Scripts/Utility/Math.cs:193-208 | reversing twice gives the direction back, reversing is two right turns, and it keeps the horizontal or vertical axis |
| MathUtil.ClassifySectors | Assets/Scripts/Utility/Math.cs:153-174 | for angles of one turn each direction is chosen on exactly its quarter sector, East around 0 degrees, then North, West and South counter-clockwise |
| MathUtil.ClassifyTurns | Assets/Scripts/Utility/Math.cs:153-174 | a negative angle is classified one turn up, half a turn more gives the reverse direction, and a quarter turn counter-clockwise the direction rotated left |
| MathUtil.DirectionVectorReverse | Assets/Scripts/Utility/Math.cs:176-208 | the reverse direction's unit vector is the negated one, and exactly the horizontal directions have no vertical part |
| MathUtil.NormalizeAngle | Assets/Scripts/Utility/Math.cs:361-376 | the loops end with the angle in `[0, 180)`, at the unique representative of the angle modulo half turns |
| MathUtil.HalfTurnRemainderProperties | Assets/Scripts/Utility/Math.cs:361-376 | the representative lies in `[0, 180)` and does not change when whole half turns are added or taken away |
| MathUtil.PushHull | Assets/Scripts/Utility/Math.cs:499-510 | one step of the chain: the new point ends the chain, what stays before it is a prefix of the old chain, the first point is never popped, and a chain turning strictly right at every inner vertex stays one |
| MathUtil.MakeHullPresorted | Assets/Scripts/Utility/Math.cs:489-534 | at most one point is copied; otherwise the hull starts at the first point, holds only input points, has at most twice as many points as the input, and splits into an upper and a lower chain, the lower one starting at the last point, each turning strictly right at every inner vertex |
| MathUtil.UpperHull | Assets/Scripts/Utility/Math.cs:498-511 | the chain over the points from first to last starts at the first point, holds at least two input points and no more than the input, and turns strictly right at every inner vertex |
| MathUtil.LowerHull | Assets/Scripts/Utility/Math.cs:514-528 | the chain over the points from last to first starts at the last point, holds at least two input points and no more than the input, and turns strictly right at every inner vertex |
| MathUtil.GetAreaOfPolygon | Assets/Scripts/Utility/Math.cs:701-732 | the area is half the magnitude of the shoelace sum over the closed polygon, and the counter-clockwise flag is set exactly when that sum is negative |
| MathUtil.ShoelaceTriangle | Assets/Scripts/Utility/Math.cs:701-732 | for a triangle the shoelace sum is the cross product of its edges, and moving the triangle does not change it |
| Buildings.Ceil | Assets/Scripts/Map/Building.cs:172 | `(int) Mathf.Ceil(x)` is the least whole number not below `x` |
| Buildings.DefaultCapacityRoundsUp | Assets/Scripts/Map/Building.cs:156-216 | the default capacity is the least whole number of people at least the type's density times the area |
| Buildings.DefaultIsDensity | Assets/Scripts/Map/Building.cs:156-216 | the per-type formulas are the density table applied to the area, a residential building having one floor below 200 square metres and three from there on |
| Buildings.DefaultCapacityMonotone | Assets/Scripts/Map/Building.cs:156-216 | a larger building of the same type never holds fewer people, and a building without area holds nobody |
| Buildings.ByteCast | Assets/Scripts/Map/Building.cs:90 | the C# cast to `byte` keeps a value in 0..255 (the low eight bits) |
| Buildings.ByteSaturate | Assets/Scripts/Map/Building.cs:90 | the corrected cast keeps a value in 0..255 and leaves every value that fits unchanged |
| Buildings.Table | Assets/Scripts/Map/Building.cs:84-153 | the array has one entry per occupancy kind, each the entry of that kind for the building's type |
| Buildings.TableShape | Assets/Scripts/Map/Building.cs:84-153 | every entry lies between 0 and the capacity, nobody parks, type `Other` holds nobody, the main kind of every other type gets the full capacity, and workers are a half or a third of the customers or visitors where the source divides |
| Buildings.Capacities | Assets/Scripts/Map/Building.cs:82-154 | a building's capacities with the saturating cast: one entry per occupancy kind |
| Buildings.CapacitiesAsWritten | Assets/Scripts/Map/Building.cs:82-154 | the same array with the wrapping `(byte)` cast of the source |
| Buildings.CapacitiesShape | Assets/Scripts/Map/Building.cs:82-154 | every entry fits a byte, and the main kind keeps the full default capacity whenever it fits one |
| Buildings.CapacitiesMonotone | Assets/Scripts/Map/Building.cs:82-216 | with the saturating cast, a larger building of a type never has a smaller capacity of any kind |
| Buildings.AirportCapacityWraps | Assets/Scripts/Map/Building.cs:131-197 | as written, a 256 square metre airport with room for 256 customers records 0 of them, while a 255 square metre one records 255; the corrected array records 255 |
| Buildings.Building.constructor | Assets/Scripts/Map/Building.cs:39-61 | the building keeps its type and area, and its capacities array is the one for them |
| Buildings.Building.GetCapacity | Assets/Scripts/Map/Building.cs:63-66 | the looked-up capacity of a kind is its entry of the building's table, in 0..255 |
| Buildings.Building.InitializeCapacities | Assets/Scripts/Map/Building.cs:82-154 | a fresh array that holds the table for the building's type and area; type and area stay |
| Buildings.Building.Spread | Assets/Scripts/Map/Building.cs:84-153 | a fresh array, all zero except the entries the type's case sets from the capacity |
| Citizens.Clamp | Assets/Scripts/Simulation/Citizen.cs:338 | `Mathf.Clamp` lands in the interval when it is not empty, and leaves a value already inside it unchanged |
| Citizens.NewInfluence | Assets/Scripts/Simulation/Citizen.cs:27-43 | a relative cap outside [0, 100] becomes 0 for a negative influence and 100 otherwise, a cap inside is kept, and the influence and duration are stored as given |
| Citizens.WithoutKeys | Assets/Scripts/Simulation/Citizen.cs:348-350 | removing a key leaves the other keys, keeps them distinct, and changes nothing when the key is absent |
| Citizens.WithoutIdempotent | Assets/Scripts/Simulation/Citizen.cs:348-350 | removing a key twice is removing it once |
| Citizens.WithoutAppend | Assets/Scripts/Simulation/Citizen.cs:308-350 | adding an influence under a key and then removing that key removes the new entry too |
| Citizens.OccupationBands | Assets/Scripts/Simulation/Citizen.cs:554-590 | each occupation by age is given for exactly one band of ages (before 7, 7 to 10, 11 to 17, 18 to 24 by draw, 25 to 66, from 67), and unemployment never is |
| Citizens.ThresholdAgesChangeOccupation | Assets/Scripts/Simulation/Citizen.cs:539-590 | the threshold ages are exactly the birthdays on which the occupation by age changes, whatever the draw |
| Citizens.TaxesByOccupation | Assets/Scripts/Simulation/Citizen.cs:747-763 | taxes lie in [0, 2]; exactly workers, university students and trainees pay; a citizen placed by age pays 2 exactly from 25 to 66 and 1 exactly from 18 to 24 |
| Citizens.InitialWorkAndEnergyBounds | Assets/Scripts/Simulation/Citizen.cs:470-493 | for every hour both the remaining work and the energy lie in [0, 100]; the work never grows as the hour advances, is full before 8 and gone from 16; retired and unemployed citizens have no work and full energy |
| Citizens.FirstAtOrAboveBand | Assets/Scripts/Simulation/Citizen.cs:640-648 | in a table of rising thresholds, a draw above one threshold and at most the next picks the next entry |
| Citizens.WorkplaceBands | Assets/Scripts/Simulation/Citizen.cs:596-648 | a draw in a band of the workplace table (above the previous threshold, at most its own) picks that band's type |
| Citizens.WorkplaceDrawInBand | Assets/Scripts/Simulation/Citizen.cs:596-648 | every draw up to 1 lies in some band of the table, whose last threshold is 1, so the office fallback after the table is never reached and the type is that band's |
| Citizens.WorkplaceType | Assets/Scripts/Simulation/Citizen.cs:611-653 | retired and unemployed citizens get no workplace, pupils of every age a high school, students a university, trainees and workers a type from the table |
| Citizens.PickWorkplace | Assets/Scripts/Simulation/Citizen.cs:640-648 | the loop returns the first table entry whose threshold is at least the draw |
| Citizens.ApplyAllBounds | Assets/Scripts/Simulation/Citizen.cs:796-810 | applying influences only tightens the bounds; influences with the default caps keep them; with non-negative influences and time going forward the happiness never falls |
| Citizens.UpdatedHappinessBounds | Assets/Scripts/Simulation/Citizen.cs:789-814 | the new happiness lies in [0, 100], and within the bounds collected from the influences whenever they do not cross |
| Citizens.TiredNeverAdded | Assets/Scripts/Simulation/Citizen.cs:336-351 | as written, an energy clamped to [0, 100] is never below 0, so a citizen who is not yet tired never becomes tired, even at 0 energy; the corrected test does add it |
| Citizens.TiredExactlyWhenExhausted | Assets/Scripts/Simulation/Citizen.cs:336-351 | with the corrected test a citizen is tired after setting the energy exactly when the energy is 0 |
| Citizens.Citizen.constructor | Assets/Scripts/Simulation/Citizen.cs:153-176 | a new citizen has no happiness influences and has not shown a happiness yet |
| Citizens.Citizen.AddHappinessInfluence | Assets/Scripts/Simulation/Citizen.cs:308-316 | the influence is added exactly when its key is new, and the keys become the old ones and that key; a present key (where `Dictionary.Add` throws) changes nothing |
| Citizens.Citizen.SetHappiness | Assets/Scripts/Simulation/Citizen.cs:318-334 | the happiness is clamped to [0, 100]; the animation is shown exactly when a value was shown before, and the value shown is the first one set or the latest change of at least 1; nothing else changes |
| Citizens.Citizen.SetEnergyAsWritten | Assets/Scripts/Simulation/Citizen.cs:336-351 | as written: the energy is clamped, `Tired` can only be removed, and the other influences stay |
| Citizens.Citizen.SetEnergy | Assets/Scripts/Simulation/Citizen.cs:336-351 | corrected: the energy is clamped, and afterwards the citizen is tired exactly when the energy is 0; the other influences stay |
| Citizens.Citizen.RemoveTired | Assets/Scripts/Simulation/Citizen.cs:348-350 | `Tired` is gone and every other influence stays as it was |
| Citizens.Citizen.SetRemainingWork | Assets/Scripts/Simulation/Citizen.cs:353-359 | unemployed and retired citizens keep their remaining work; the others get the value clamped to [0, 100]; nothing else changes |
| Citizens.Citizen.UpdateHappiness | Assets/Scripts/Simulation/Citizen.cs:789-814 | the happiness becomes the result of the influences, taken in the dictionary's enumeration order (any arrangement of them), for the passed time, in [0, 100]; the change is animated, and becomes the last shown value, by `SetHappiness`'s rule; nothing else changes |
| Citizens.OrderMatters | Assets/Scripts/Simulation/Citizen.cs:796-805 | the enumeration order matters: each relative cap is tested against the running happiness, so two influences applied in the two orders end at different values |
| Citizens.Citizen.AssignOccupation | Assets/Scripts/Simulation/Citizen.cs:554-590 | a given occupation is taken as it is, otherwise the one for the citizen's age and draw; nothing else changes |
| Citizens.Citizen.UpdateAge | Assets/Scripts/Simulation/Citizen.cs:731-745 | the age goes up by one exactly on the birthday, and the occupation is assigned anew exactly when that age is a threshold age |
| Citizens.Citizen.Taxes | Assets/Scripts/Simulation/Citizen.cs:747-763 | the citizen's taxes lie in [0, 2] and are positive exactly for workers, university students and trainees |
| CitizenBuilders.ChosenIsFirstReaching | Assets/Scripts/Simulation/CitizenBuilder.cs:386-397 | the type chosen is the entry at the first index whose running sum of weights reaches the draw, and an office when no running sum does |
| CitizenBuilders.ChooseWorkplace | Assets/Scripts/Simulation/CitizenBuilder.cs:386-397 | the running-sum loop picks the type that the choice by cumulative weight defines |
| CitizenBuilders.WeightsTotal | Assets/Scripts/Simulation/CitizenBuilder.cs:338-397 | the weights add up to 0.95, so a draw above that gives an office, and a draw of at most 0.15 gives a shop |
| CitizenBuilders.WorkplaceFor | Assets/Scripts/Simulation/CitizenBuilder.cs:355-402 | none for retired and unemployed citizens, each school for its pupils, and a type chosen by weight for trainees and workers |
| CitizenBuilders.AssignOccupation | Assets/Scripts/Simulation/CitizenBuilder.cs:243-270 | the occupation becomes the one for the citizen's age and draw; nothing else changes |
| CitizenBuilders.MoneyRanges | Assets/Scripts/Simulation/CitizenBuilder.cs:306-335 | every occupation's money range is non-empty and non-negative, and only workers can start with more than 5000 |
| CitizenBuilders.AssignMoney | Assets/Scripts/Simulation/CitizenBuilder.cs:306-335 | the money lies in the occupation's range, at the place the draw says; nothing else changes |
| CitizenBuilders.CarShare | Assets/Scripts/Simulation/CitizenBuilder.cs:184-187 | without a given answer, exactly nine of the ten draws give a citizen of 16 or more a car (all but 9), and none gives a younger citizen one |
| CitizenBuilders.InitializeState | Assets/Scripts/Simulation/CitizenBuilder.cs:184-226 | a car is created for the given answer or the draw as `HasCar` says; the happiness is the given one or one drawn from [70, 100); work and energy are the given ones when both are given, otherwise those of the occupation at the current hour; age, occupation, birthday, influences, money and the last shown happiness are kept |
| CitizenSchedules.EnergyBonusSigns | Assets/Scripts/Simulation/CitizenSchedule.cs:137-159 | only relaxing and sleeping restore energy, no event leaves it alone, every rate is at most 100/8 per hour either way, eight hours' sleep restore all of it and eight hours of exercise use it all up |
| CitizenSchedules.HappinessAndWorkTables | Assets/Scripts/Simulation/CitizenSchedule.cs:85-135 | happiness bonuses lie between 0 and that of leisure, are zero exactly for work and shopping; exactly sleep, work and shopping are penalised when missed; eight hours of work do a full day's work |
| CitizenSchedules.PenaltyForMissingSign | Assets/Scripts/Simulation/CitizenSchedule.cs:127-130 | missing an event that ends after its departure never gives happiness back, and costs nothing for the types without a penalty |
| CitizenSchedules.MaxPossibleDurationLasts | Assets/Scripts/Simulation/CitizenSchedule.cs:298-307 | an event that does not tire may last without bound; a tiring one lasts the largest whole number of minutes whose energy cost stays within the citizen's energy |
| CitizenSchedules.RandomDurationRanges | Assets/Scripts/Simulation/CitizenSchedule.cs:544-564 | every random duration range is non-empty, starts at half an hour at the least and ends by ten hours, and exactly work starts at eight hours |
| CitizenSchedules.ShortGapRelaxes | Assets/Scripts/Simulation/CitizenSchedule.cs:312-322 | a gap of under half an hour is spent relaxing where the citizen is, with no path, from now to the end of the gap |
| CitizenSchedules.LeisureEventFits | Assets/Scripts/Simulation/CitizenSchedule.cs:324-361 | a longer gap: the citizen leaves now for the drawn destination and the event, starting on arrival, fits the gap; sleep is chosen exactly when tired (or drawn) and lasts at most nine hours; work lasts until the remaining work is done unless the gap ends first; a random event never costs more energy than the citizen has |
| CitizenSchedules.SleepThresholdFinding | Assets/Scripts/Simulation/CitizenSchedule.cs:327-332 | as written, a citizen with a tenth of the full energy may be sent to exercise, while with the threshold of the comment it goes to sleep |
| CitizenSchedules.SleepsWhenTired | Assets/Scripts/Simulation/CitizenSchedule.cs:327-343 | with the corrected threshold, and a draw other than sleep, the citizen sleeps exactly when under a quarter of the full energy |
| CitizenSchedules.SortByStartCorrect | Assets/Scripts/Simulation/CitizenSchedule.cs:197-199 | the fixed events, once sorted, are ordered by starting time and are a permutation of the given ones |
| CitizenSchedules.WeekdayOfAddedDays | Assets/Scripts/Simulation/CitizenSchedule.cs:241 | the weekday flag the search tests, today's flag moved by the added days, is the flag of the day that many days ahead |
| CitizenSchedules.FirstEligibleIsFirst | Assets/Scripts/Simulation/CitizenSchedule.cs:242-255 | the event chosen on a day is eligible (it takes place that day and is not done when the day is today), and no eligible event comes before it in the sorted order |
| CitizenSchedules.FirstEligibleLaterDays | Assets/Scripts/Simulation/CitizenSchedule.cs:245-248 | after today, whether an event was done no longer matters |
| CitizenSchedules.FindNextIsEarliest | Assets/Scripts/Simulation/CitizenSchedule.cs:234-296 | when some event is eligible on day `b`, the search finds one on day `b` or earlier, the first eligible event of its day, starting no later than that event when the day is `b` |
| CitizenSchedules.NoEventOnAnyDay | Assets/Scripts/Simulation/CitizenSchedule.cs:295 | when a week and a day of search finds nothing, no number of added days finds anything, so the recursion of the source never returns |
| CitizenSchedules.TimingRules | Assets/Scripts/Simulation/CitizenSchedule.cs:262-284 | the citizen never leaves in the past: on time when there is time, otherwise at once; an event reached on time, or a late one that need not be done in full, ends at its scheduled end; a late one that must be done in full lasts its whole duration from now |
| CitizenSchedules.NextFixedDepartsLater | Assets/Scripts/Simulation/CitizenSchedule.cs:256-292 | a fixed event handed out departs no earlier than now, has no path yet, has its event's type, and its location is the one recorded for the event |
| CitizenSchedules.Schedule.constructor | Assets/Scripts/Simulation/CitizenSchedule.cs:186-203 | the events are the given ones sorted by starting time, none done, no location chosen, no next event |
| CitizenSchedules.Schedule.Reset | Assets/Scripts/Simulation/CitizenSchedule.cs:206-216 | every event is not done and has no location; nothing else changes |
| CitizenSchedules.Schedule.DepartureAndEnd | Assets/Scripts/Simulation/CitizenSchedule.cs:262-284 | the departure and end computed are those of the timing rules |
| CitizenSchedules.Schedule.FindEventOn | Assets/Scripts/Simulation/CitizenSchedule.cs:242-293 | the loop over the events of one day finds the first eligible event |
| CitizenSchedules.Schedule.GetNextFixedEvent | Assets/Scripts/Simulation/CitizenSchedule.cs:234-296 | the result is the earliest eligible event with its timing, none where the source never returns; the chosen event's location is recorded and nothing else changes |
| CitizenSchedules.Schedule.GetNextEvent | Assets/Scripts/Simulation/CitizenSchedule.cs:364-401 | a new day resets the events; with no fixed events a leisurely event fills the time; otherwise the pending fixed event is planned if needed, the gap before it is filled with a leisurely event, and once it is due it is marked done, cleared and handed out with its path |
| FinanceControllers.TotalAppend | Assets/Scripts/Simulation/FinanceController.cs:200-218 | adding an item raises the sum of the items by its amount |
| FinanceControllers.TotalUpdate | Assets/Scripts/Simulation/FinanceController.cs:200-218 | changing one item's amount changes the sum by the difference |
| FinanceControllers.AfterTickBounds | Assets/Scripts/Simulation/FinanceController.cs:191-198 | an update never leaves more than `MaxMoney`, adds exactly one tick's income (a sixtieth of the hourly income) when that stays under the cap, never adds more than that, and with no income leaves the money alone up to the cap |
| FinanceControllers.TicksAddIncome | Assets/Scripts/Simulation/FinanceController.cs:114-128 | while the cap is not reached, `n` updates add `n` ticks' income, each a sixtieth of the hourly income (earnings minus expenses), also for a loss |
| FinanceControllers.HourOfTicks | Assets/Scripts/Simulation/FinanceController.cs:114-128 | an hour of 60 updates below the cap adds exactly the hourly income |
| FinanceControllers.FinanceController.constructor | Assets/Scripts/Simulation/FinanceController.cs:130-142 | the only item is the taxes item, at zero; money and totals are zero |
| FinanceControllers.FinanceController.Earn | Assets/Scripts/Simulation/FinanceController.cs:159-163 | the money goes up by the amount; nothing else changes |
| FinanceControllers.FinanceController.Purchase | Assets/Scripts/Simulation/FinanceController.cs:165-171 | the price is taken whatever the funds; the debug assertion holds exactly when the money exceeded the price; nothing else changes |
| FinanceControllers.FinanceController.AddEarning | Assets/Scripts/Simulation/FinanceController.cs:173-180 | the item goes at the end of the earnings list and the taxes item stays first and unchanged; nothing else changes |
| FinanceControllers.FinanceController.AddExpense | Assets/Scripts/Simulation/FinanceController.cs:182-189 | the item goes at the end of the expenses list; nothing else changes |
| FinanceControllers.FinanceController.PayTaxes | Assets/Scripts/Simulation/Citizen.cs:536 | the taxes item grows by the amount, so the sum of the earnings does too; nothing else changes |
| FinanceControllers.FinanceController.UpdateEarnings | Assets/Scripts/Simulation/FinanceController.cs:200-208 | the earnings become the sum of the earning items; nothing else changes |
| FinanceControllers.FinanceController.UpdateExpenses | Assets/Scripts/Simulation/FinanceController.cs:210-218 | the expenses become the sum of the expense items; nothing else changes |
| FinanceControllers.FinanceController.UpdateFinances | Assets/Scripts/Simulation/FinanceController.cs:191-198 | both totals are summed afresh and the money gets one tick's income, capped at `MaxMoney` |
| FinanceControllers.FinanceController.SetMoney | Assets/Scripts/Simulation/FinanceController.cs:72-83 | the money set, then updated as `UpdateFinances` does |
| FinanceControllers.TaxesRaiseEarnings | Assets/Scripts/Simulation/FinanceController.cs:200-208 | after a citizen's taxes are paid into the taxes item, the sum of the earnings is higher by exactly that amount |
| IDM.Nibble | Assets/Scripts/Simulation/IDM.cs:193 | a path's counter, `(m >> 4k) & 0xF`, lies in 0..15 |
| IDM.SubPowNibble | Assets/Scripts/Simulation/IDM.cs:235-239 | taking one away from a non-zero counter lowers that counter by one and leaves the others alone |
| IDM.ClearLowNibble | Assets/Scripts/Simulation/IDM.cs:55 | clearing the low bit of one path's counter touches no other counter |
| IDM.ClearAllNibble | Assets/Scripts/Simulation/IDM.cs:55-143 | after clearing the listed paths, each listed counter has lost its low bit and the others are unchanged |
| IDM.Literals | Assets/Scripts/Simulation/IDM.cs:14-15 | the base mask is sixteen counters of one, and the word holds 16^16 values (with line 156) |
| IDM.BaseMaskNibbles | Assets/Scripts/Simulation/IDM.cs:13-15 | the base mask adds one to every path |
| IDM.Offset | Assets/Scripts/Simulation/IDM.cs:40-43 | `GetOffsetFor(from, to) = from * 4 + to` names one of the sixteen paths |
| IDM.Directions | Assets/Scripts/Simulation/IDM.cs:57-133 | going straight, turning left, turning right and the own street are the four streets of the crossing |
| IDM.TwoWayMaskNibbles | Assets/Scripts/Simulation/IDM.cs:47-148 | a two-way by two-way mask blocks exactly the paths that its rules do not leave open |
| IDM.OwnStreetUnblocked | Assets/Scripts/Simulation/IDM.cs:54-143 | a car never blocks its own path, the U-turn into its own street, or the left and right turns out of its own street |
| IDM.TwoWayMaskSparse | Assets/Scripts/Simulation/IDM.cs:47-148 | every counter of a two-way mask is 0 or 1 |
| IDM.GetMask | Assets/Scripts/Simulation/IDM.cs:152-181 | on more than four streets every bit is set; a two-way by two-way crossing takes its table entry; otherwise every path but the crossing's own is blocked once; below five streets every counter is 0 or 1 |
| IDM.IsBlockedReadsOneNibble | Assets/Scripts/Simulation/IDM.cs:184-194 | on small crossings `IsBlocked` reads only the counter of the path |
| IDM.BlockThenUnblock | Assets/Scripts/Simulation/IDM.cs:218-239 | `Unblock` after `Block` with the same mask restores the occupation word, also when the addition wrapped around (the car count is restored by the two methods' contracts) |
| IDM.SumOfSparse | Assets/Scripts/Simulation/IDM.cs:218-222 | with at most 15 cars on a small crossing nothing carries: each counter of the word is the number of cars blocking that path |
| IDM.BlockedIffSomeCarBlocks | Assets/Scripts/Simulation/IDM.cs:184-222 | on a small crossing with at most 15 cars, a path is blocked exactly when some car on the crossing blocks it |
| IDM.LargeBlockedIffOccupied | Assets/Scripts/Simulation/IDM.cs:154-190 | on a crossing of more than four streets with at most 16 cars, it is blocked exactly when some car is on it |
| IDM.SixteenCarsHidePath | Assets/Scripts/Simulation/IDM.cs:199-208 | as written, sixteen cars that all block path 0 are let on, carry its counter into the next one, and leave the word saying path 0 is free |
| IDM.AdmittedCarCounted | Assets/Scripts/Simulation/IDM.cs:199-205 | corrected: a car admitted while fewer than 15 are on the crossing is counted, since with it a path reads as blocked exactly when one of the cars blocks it |
| IDM.IntersectionStatus.constructor | Assets/Scripts/Simulation/IDM.cs:30-35 | no car and an empty word |
| IDM.IntersectionStatus.TryBlock | Assets/Scripts/Simulation/IDM.cs:197-215 | the car is let on exactly when the corrected test admits it, and then its mask is added; otherwise nothing changes |
| IDM.IntersectionStatus.Block | Assets/Scripts/Simulation/IDM.cs:218-222 | the word gains the mask, modulo 2^64, and the car count goes up by one |
| IDM.IntersectionStatus.Unblock | Assets/Scripts/Simulation/IDM.cs:225-239 | the word loses the car's mask, modulo 2^64, and the car count goes down by one |
| IDM.IntersectionStatus.BlockedMeansOccupied | Assets/Scripts/Simulation/IDM.cs:184-194 | while at most 15 cars with masks of small crossings occupy it, a path is blocked exactly when some occupying car blocks it |
| IDM.IntersectionStatus.LargeBlockedMeansOccupied | Assets/Scripts/Simulation/IDM.cs:187-190 | on a large crossing with at most 16 cars, blocked means occupied |
| IDM.ComputeTwoWayMask | Assets/Scripts/Simulation/IDM.cs:52-146 | starting from the base mask and clearing the low bit of each open path gives a word whose counters are 0 exactly at the open paths and 1 elsewhere |
| IDM.InitTwoWayByTwoWayMasks | Assets/Scripts/Simulation/IDM.cs:38-149 | a fresh 4x4 table whose every entry is the two-way mask of its pair of streets |
| IDM.FillRow | Assets/Scripts/Simulation/IDM.cs:49-147 | the inner loop fills one row with the masks of one `from` street |
| Lines.AverageSpeedTable | Assets/Scripts/Transit/Line.cs:78-95 | every line moves forward, ferries are the slowest and intercity trains the fastest, and the speed reads back in real-time km/h as the table's value |
| Lines.LineWidth | Assets/Scripts/Transit/Line.cs:116-133 | buses, trams and ferries are drawn 1.25 wide and exactly the rail types 3 wide |
| Lines.PrefixLengthMonotone | Assets/Scripts/Transit/Line.cs:229-239 | with routes of non-negative length the running lengths never decrease |
| Lines.AddRoutesShape | Assets/Scripts/Transit/Line.cs:182-220 | built from nothing, a line's stops are the first route's begin stop and then every route's end stop, and it has one route per one-way addition and two per other addition |
| Lines.Line.constructor | Assets/Scripts/Transit/Line.cs:135-153 | a new line has its transit type, no stops, no routes and length 0 |
| Lines.Line.AddRoute | Assets/Scripts/Transit/Line.cs:182-220 | the route returned runs from `begin` to `end`; the first route also adds its begin stop, every route its end stop, and a two-way route is followed by its back route; nothing else changes |
| Lines.Line.GetRoute | Assets/Scripts/Transit/Line.cs:222-226 | no route without routes; a non-negative index wraps around modulo the route count; a negative index, whose C# remainder is negative, fails the list's bounds check |
| Lines.Line.CalculateLength | Assets/Scripts/Transit/Line.cs:228-239 | a fresh array with one running sum per route, continuing from the length already held, and the length grows by the total of the routes |
| Lines.GetRouteWraps | Assets/Scripts/Transit/Line.cs:222-226 | an index one route count further gives the same route, and the route count itself gives the first route |
| Lines.TotalTravelTimeIsLengthOverSpeed | Assets/Scripts/Transit/Line.cs:71-114 | a line's travel time times its speed is its length, since no type waits at stops, so it is never negative |
| MeshBuilders.QuadIndices | Assets/Scripts/Utility/MeshBuilder.cs:28-34 | the six indices of a quad name only its four corners, each of them, as two triangles that share the diagonal from the first corner to the third |
| MeshBuilders.MeshData.constructor | Assets/Scripts/Utility/MeshBuilder.cs:10-14 | the lists a mesh is built from start empty |
| MeshBuilders.MeshData.AddQuad | Assets/Scripts/Utility/MeshBuilder.cs:10-40 | the four corners, their normals, two triangles over them and their texture coordinates are appended after what is there |
| MeshBuilders.FixTriangle | Assets/Scripts/Utility/MeshBuilder.cs:1194-1204 | a triangle keeps its corners or has its last two exchanged, is never counter-clockwise afterwards, and is left alone when it is not counter-clockwise |
| MeshBuilders.FixedUnique | Assets/Scripts/Utility/MeshBuilder.cs:1187-1208 | the fixed index list is determined by the input: only one list satisfies the fixing relation |
| MeshBuilders.FixedTriangles | Assets/Scripts/Utility/MeshBuilder.cs:1187-1208 | after fixing, the indices name whole triangles over the same vertices, none is counter-clockwise, and each triangle keeps its corners with at most the last two exchanged |
| MeshBuilders.FixedAgain | Assets/Scripts/Utility/MeshBuilder.cs:1187-1208 | fixing is idempotent: a second run over a fixed list changes nothing |
| MeshBuilders.FixOne | Assets/Scripts/Utility/MeshBuilder.cs:1192-1205 | one step of the loop fixes the triangle at `i`, changes no other index and permutes the array |
| MeshBuilders.FixWindingOrderInPlace | Assets/Scripts/Utility/MeshBuilder.cs:1187-1208 | the loop over the triangle array fixes every triangle in place, permuting the indices |
| MeshBuilders.FixWindingOrder | Assets/Scripts/Utility/MeshBuilder.cs:1187-1208 | the mesh's triangles become the fixed ones, a permutation of the old; vertices, normals and texture coordinates stay |
| MeshBuilders.QuadCorners | Assets/Scripts/Utility/MeshBuilder.cs:10-40 | both triangles of an upright rectangle quad are clockwise, as the comment at line 28 asks |
| MeshBuilders.QuadIsClockwise | Assets/Scripts/Utility/MeshBuilder.cs:10-40 | a quad appended as an upright rectangle is left as it is by a later fixing, which fixes the triangles before it as before (with lines 1187-1208) |
| MeshBuilders.DistanceKeptFrom | Assets/Scripts/Utility/MeshBuilder.cs:1032-1045 | the loop keeps at most one point per segment, and only input points |
| MeshBuilders.DistanceKeptAll | Assets/Scripts/Utility/MeshBuilder.cs:1032-1045 | with no minimum distance the loop keeps every point it passes |
| MeshBuilders.RemoveDetailByDistance | Assets/Scripts/Utility/MeshBuilder.cs:1022-1049 | up to two points come back as they are; otherwise the result ends with the last point, is no longer than the input and holds only input points |
| MeshBuilders.DistanceKeepsAll | Assets/Scripts/Utility/MeshBuilder.cs:1022-1049 | with a minimum distance of zero or less nothing is removed |
| MeshBuilders.AngleKeptFrom | Assets/Scripts/Utility/MeshBuilder.cs:959-977 | the loop adds no more points than it passes, and only input points |
| MeshBuilders.AngleKeptNone | Assets/Scripts/Utility/MeshBuilder.cs:959-977 | without a sharp corner the loop keeps nothing |
| MeshBuilders.RemoveDetailByAngle | Assets/Scripts/Utility/MeshBuilder.cs:944-981 | up to three points come back as they are; otherwise the first and last points are kept, the result is no longer than the input and holds only input points |
| MeshBuilders.AngleKeepsEnds | Assets/Scripts/Utility/MeshBuilder.cs:944-981 | without a sharp corner only the two end points remain |
| MeshBuilders.ExtentTight | Assets/Scripts/Utility/MeshBuilder.cs:1236-1252 | with the maxima starting at minus infinity, the bounds are those of the points: each bound is reached by some point and holds every point |
| MeshBuilders.AsWrittenExtent | Assets/Scripts/Utility/MeshBuilder.cs:1238-1249 | as written, with the maxima starting at 0, the minima are the points' and the maxima the larger of 0 and the points' |
| MeshBuilders.AsWrittenAgreesWhenNonNegative | Assets/Scripts/Utility/MeshBuilder.cs:1236-1252 | for points without negative coordinates the rectangle as written is the tight one |
| MeshBuilders.CollisionRectFinding | Assets/Scripts/Utility/MeshBuilder.cs:1238-1241 | as written, two points left of and below the origin get a rectangle reaching to the origin, five units wide instead of two |
| MeshBuilders.GetCollisionRect | Assets/Scripts/Utility/MeshBuilder.cs:1236-1252 | corrected: the smallest rectangle holding every point, each edge touching some point; none for no points |
| MeshBuilders.GetCollisionRectOfArrays | Assets/Scripts/Utility/MeshBuilder.cs:1254-1273 | corrected: the smallest rectangle of all the arrays' points taken together; none when there are no points |
| MultiMesh.AppendedCorners | Assets/Scripts/Map/MultiMesh.cs:50-72 | appending a mesh keeps every index of the buffer on one of its vertices, leaves the old corners on their vertices, and stands each new corner on the vertex the added mesh gave it, at the buffer's depth |
| MultiMesh.ScanEnd | Assets/Scripts/Map/MultiMesh.cs:101-122 | the inner scan ends between its start and the end of the list |
| MultiMesh.ScanSpan | Assets/Scripts/Map/MultiMesh.cs:101-122 | the scanned indices lie within fewer than `maxMeshVertices` of each other |
| MultiMesh.RoundDown3 | Assets/Scripts/Map/MultiMesh.cs:124-127 | the loop steps back to the largest multiple of three not above the end |
| MultiMesh.MakePieceShape | Assets/Scripts/Map/MultiMesh.cs:129-162 | a piece holds whole triangles and at most `maxMeshVertices` vertices, its indices are rebased to start at 0, and each corner stands on the vertex it had |
| MultiMesh.ChunkSpan | Assets/Scripts/Map/MultiMesh.cs:97-129 | a chunk ends within the list, holds whole triangles, and its indices span fewer than `maxMeshVertices` values |
| MultiMesh.Extremes | Assets/Scripts/Map/MultiMesh.cs:131-132 | `Min()` and `Max()` are elements of the range, and every element lies between them |
| MultiMesh.ChunksCover | Assets/Scripts/Map/MultiMesh.cs:95-166 | a cut that succeeds puts every triangle in exactly one piece, in order, and every piece is good |
| MultiMesh.LeftoverCornersThrow | Assets/Scripts/Map/MultiMesh.cs:124-134 | a list whose length is not a multiple of three ends in a chunk without triangles, on which `Min()` throws |
| MultiMesh.CutTriangles | Assets/Scripts/Map/MultiMesh.cs:85-168 | the loop over one colour's triangles produces the cut the recursive definition gives |
| MultiMesh.ChunkEndOf | Assets/Scripts/Map/MultiMesh.cs:97-129 | the end of a chunk is the scan's end stepped back to a triangle boundary, a multiple of three within the list |
| MultiMesh.Scan | Assets/Scripts/Map/MultiMesh.cs:97-122 | the inner loop stops where the recursive scan does |
| MultiMesh.CreateAllEffect | Assets/Scripts/Map/MultiMesh.cs:76-169 | cutting changes only the buffers' meshes, skips a colour already cut, and when no error stops it leaves every colour of the given order cut |
| MultiMesh.MultiMesh.constructor | Assets/Scripts/Map/MultiMesh.cs:33-48 | a new batch has no `meshData` and no colours |
| MultiMesh.MultiMesh.AddMesh | Assets/Scripts/Map/MultiMesh.cs:50-72 | the `meshData` exists afterwards, and the mesh is appended to its colour's buffer, an empty one being made when there is none; the other colours stay |
| MultiMesh.MultiMesh.CreateMeshes | Assets/Scripts/Map/MultiMesh.cs:76-169 | a batch never given a mesh throws at once, changing nothing; otherwise every colour of the dictionary is taken once, in its enumeration order, and the loop stops at the error that throws, the colours cut before it keeping their meshes; with no error every colour is cut |
| Objectives.UpdateCases | Assets/Scripts/Missions/Objective.cs:116-136 | a finished objective stays as it is and reports nothing; one in progress fails, and reports it, exactly when its deadline has come, and is otherwise completed exactly when its progress reaches one |
| Objectives.ReachedMoney | Assets/Scripts/Missions/Objective.cs:96-129 | a positive requirement of money is met exactly by that much money, and only money objectives are ever completed |
| Objectives.UpdateAllFirstDecisive | Assets/Scripts/Missions/Objective.cs:116-136 | over a run of updates, an objective starting in progress stays in progress exactly when no update was decisive, and otherwise ends as the first decisive update made it, failed or completed |
| Objectives.Objective.constructor | Assets/Scripts/Missions/Objective.cs:53-75 | a new objective keeps its type, requirement and deadline and is in progress |
| Objectives.ObjectiveOutcome | Assets/Scripts/Missions/Objective.cs:88-93 | after a series of updates from its creation, an objective is completed exactly when the first decisive update came before the deadline, failed exactly when it came at or after the deadline, and neither while no update was decisive; only an objective with a deadline fails (with lines 116-136) |
| Objectives.Objective.UpdateProgress | Assets/Scripts/Missions/Objective.cs:116-136 | the status and the value returned are those of one update at the given game time and money; nothing else changes |
| Objectives.NewTask | Assets/Scripts/Missions/Objective.cs:332-333 | corrected: every task carries the type of its own kind (with lines 179-187) |
| Objectives.NewTaskFields | Assets/Scripts/Missions/Objective.cs:179-187 | each task records its kind, the game time as its start, its deadline, its reward and one hook, transit tasks on transit changes and the money task on changes of money; as written the happiness task claims to be a money task, corrected it is a happiness task (with lines 205-333) |
| Objectives.EstimateProgress | Assets/Scripts/Missions/Objective.cs:212-323 | every estimate lies in [0, 1]; a money task of no amount, whose division throws, has none (with line 190) |
| Objectives.TaskNeverFails | Assets/Scripts/Missions/Objective.cs:193-196 | no task fails, not even past its deadline, where a timed task shows full progress instead (with lines 311-323 and 339-342) |
| Objectives.MoneyProgress | Assets/Scripts/Missions/Objective.cs:296-299 | a money task is done exactly when the money reaches the amount, and shows the fraction saved until then |
| Objectives.EstimateProgressDefined | Assets/Scripts/Missions/Objective.cs:212-299 | only a money task of no amount has no estimate, and the transit tasks always show 0 |
| Objectives.TimedProgressShape | Assets/Scripts/Missions/Objective.cs:311-323 | a timed task's progress lies in [0, 1], is 1 exactly from the deadline on, is the fraction of the time passed before it, and never goes back as time goes on |
| Paths.RotatedRight | Assets/Scripts/Utility/Path.cs:22-33 | a quarter turn clockwise never gives the same direction |
| Paths.RotatedLeft | Assets/Scripts/Utility/Path.cs:35-46 | a quarter turn counter-clockwise never gives the same direction |
| Paths.RotationAlgebra | Assets/Scripts/Utility/Path.cs:17-46 | the two rotations undo each other, four right turns come back to the start, two right turns are two left turns, and every quarter turn swaps horizontal (East, West) and vertical directions |
| Paths.LineLengthIsPolyline | Assets/Scripts/Utility/Path.cs:109-112 | the point-list length is the sum of the edge lengths as street segments compute it, for a symmetric length function, and never negative for a norm |
| Paths.TwoPointSegments | Assets/Scripts/Utility/Path.cs:87-100 | a segment through two points has the distance between them as its length, whichever constructor builds it |
| Paths.NewSegment | Assets/Scripts/Utility/Path.cs:94-113 | the point-list constructor: two points give a straight segment, more a line whose length the loop sums over the edges |
| Paths.NewLineSegment | Assets/Scripts/Utility/Path.cs:115-128 | a line segment over the points, with the given length, or the sum over the edges when that is 0 |
| Paths.PointAtLoop | Assets/Scripts/Utility/Path.cs:145-184 | the loop finds the point the walk along the segment defines, and an offset of at least 1 gives the last point |
| Paths.WalkLine | Assets/Scripts/Utility/Path.cs:158-174 | the loop over the line's edges returns the point the walk along the edges defines |
| Paths.LineWalkOnEdge | Assets/Scripts/Utility/Path.cs:158-174 | the walk ends on the edge where the needed length falls, at the remaining length from that edge's start along it, or at the last point when the needed length is beyond the line |
| Paths.PointAtStart | Assets/Scripts/Utility/Path.cs:152-168 | at offset 0 a straight segment starts at its first point, and so does a line whose first edge has a positive length |
| Paths.TotalLengthAppend | Assets/Scripts/Utility/Path.cs:279 | the summed length adds up over a split of the segment list |
| Paths.TotalLengthSingle | Assets/Scripts/Utility/Path.cs:279 | one segment's path is exactly as long as the segment |
| Paths.PathConstructorsAgree | Assets/Scripts/Utility/Path.cs:259-296 | a single segment or a point list gives the path of that one segment, two points the straight path, a copy equals the summed path, and joining two segment lists adds the lengths |
| Paths.PathEnds | Assets/Scripts/Utility/Path.cs:282-296 | a straight path starts and ends at its two points, and a path through points starts at the first and ends at the last |
| PathPlanning.Range | Assets/Scripts/Transit/PathPlanningCar.cs:1018-1119 | exactly the stops `0 .. n-1` of the search graph are members |
| PathPlanning.Neighbor | Assets/Scripts/Transit/PathPlanningCar.cs:1044-1057 | a route leads nowhere exactly when the stop is not its begin and it is one-way; otherwise it leads to its end or its begin |
| PathPlanning.Lowest | Assets/Scripts/Transit/PathPlanningCar.cs:872-898 | the result is a member of the set with a recorded score no greater than any scored member's; a stop without one scores positive infinity (`GetScore`) and is never picked, so the result is none only when no member has a score |
| PathPlanning.WaitMinutesFinding | Assets/Scripts/Transit/PathPlanningCar.cs:1088-1094 | the wait charged through `TimeSpan.Minutes` is its minutes component: a wait of an hour or more is charged less than it lasts (75 minutes count 15, 60 count 0) |
| PathPlanning.TentativeDuration | Assets/Scripts/Transit/PathPlanningCar.cs:1068-1095 | on a change of line the neighbour is reached at the route's next departure plus its travel time and the wait adds to the waiting time; on the same line only the travel time is added |
| PathPlanning.RelaxKeeps | Assets/Scripts/Transit/PathPlanningCar.cs:1044-1113 | following a route of a closed stop keeps the search invariant, leaves the closed set unchanged, only adds to the open set and leaves the neighbour open or closed |
| PathPlanning.VisitKeeps | Assets/Scripts/Transit/PathPlanningCar.cs:1097-1113 | recording a neighbour that is not closed keeps the invariant and leaves the neighbour open |
| PathPlanning.RelaxScores | Assets/Scripts/Transit/PathPlanningCar.cs:1059-1113 | scores only fall and closed stops keep theirs; the search changes exactly when the route leads to a stop that is not closed and is new or strictly cheaper, and then that stop's score is the tentative cost |
| PathPlanning.ReachableClosed | Assets/Scripts/Transit/PathPlanningCar.cs:1031-1118 | once the open set is empty and every closed stop is expanded, every stop reachable from the start is closed, so a null result means no goal is reachable |
| PathPlanning.InitialInv | Assets/Scripts/Transit/PathPlanningCar.cs:1020-1029 | the initial search (only the start open, at zero cost) meets the invariant |
| PathPlanning.CloseKeeps | Assets/Scripts/Transit/PathPlanningCar.cs:1039-1040 | moving the selected stop from the open to the closed set keeps the invariant and leaves only that stop's routes to follow |
| PathPlanning.PathPlanner.constructor | Assets/Scripts/Transit/PathPlanningCar.cs:846-858 | a new planner has every set and dictionary empty |
| PathPlanning.PathPlanner.TentativeCosts | Assets/Scripts/Transit/PathPlanningCar.cs:1068-1095 | the cost, duration and waiting time computed are those of `Tentative` |
| PathPlanning.PathPlanner.Relax | Assets/Scripts/Transit/PathPlanningCar.cs:1044-1113 | the planner's new state is one `RelaxStep` of the old one |
| PathPlanning.PathPlanner.Visit | Assets/Scripts/Transit/PathPlanningCar.cs:1068-1113 | the planner's new state is one `VisitStep` of the old one and the recorded paths are unchanged |
| PathPlanning.PathPlanner.Start | Assets/Scripts/Transit/PathPlanningCar.cs:1020-1029 | the state is the initial search, which meets the invariant, and only the start has a path |
| PathPlanning.PathPlanner.Close | Assets/Scripts/Transit/PathPlanningCar.cs:1039-1040 | the selected stop moves from the open to the closed set and the invariant holds |
| PathPlanning.PathPlanner.ExpandStop | Assets/Scripts/Transit/PathPlanningCar.cs:1042-1115 | after following every route of the stop just closed the invariant holds, the closed set is unchanged and every closed stop is expanded |
| PathPlanning.PathPlanner.GetPath | Assets/Scripts/Transit/PathPlanningCar.cs:1018-1119 | a result is a goal stop, open, with a recorded path and the least estimate of the open stops; no result only once the open set is empty |
| PathPlanning.Block | Assets/Scripts/Transit/PathPlanningCar.cs:574-644 | one iteration writes the step itself last, preceded by at most one inserted step, which is a wait or a turn |
| PathPlanning.RecalcFromAppend | Assets/Scripts/Transit/PathPlanningCar.cs:568-647 | recalculating over two series of steps is recalculating over the first and then continuing over the second |
| PathPlanning.RecalcLength | Assets/Scripts/Transit/PathPlanningCar.cs:574-644 | the steps written keep those already written and gain one or two per original step, the last written being the last original step |
| PathPlanning.RecalcWalk | Assets/Scripts/Transit/PathPlanningCar.cs:568-654 | an all-walk path gains no step: each walk starts when the walks before it end and the arrival is the departure plus all their durations |
| PathPlanning.RecalcTwice | Assets/Scripts/Transit/PathPlanningCar.cs:568-647 | when departures are fixed points of the timetable, recalculating a recalculated path inserts no further step and keeps the arrival time |
| PathPlanning.PathPlanningResult.constructor | Assets/Scripts/Transit/PathPlanningCar.cs:549-558 | the cost, departure and steps are those given and the arrival is unset |
| PathPlanning.PathPlanningResult.Advance | Assets/Scripts/Transit/PathPlanningCar.cs:576-643 | the step at the index is replaced by its block, the running time moves past it and the other fields are unchanged |
| PathPlanning.PathPlanningResult.RecalculateTimes | Assets/Scripts/Transit/PathPlanningCar.cs:568-647 | the new steps and arrival time are those of `Recalc` over the old steps from the departure time |
| PathPlanning.CreateWalk | Assets/Scripts/Transit/PathPlanningCar.cs:1132-1143 | the result is a single walk, an all-walk path, costed at the walking time factor, leaving now and arriving after the walk |
| PathPlanning.FindClosestPath | Assets/Scripts/Transit/PathPlanningCar.cs:1325-1353 | a walk exactly when the distance is within the maximum walking distance; a drive only when cars are allowed and the drive exists and is strictly cheaper than transit |
| PathPlanning.ClosestPathIsCheapest | Assets/Scripts/Transit/PathPlanningCar.cs:1333-1352 | beyond walking distance the choice costs no more than transit and, when a drive is on offer, no more than it; the drive is taken exactly when it is strictly cheaper |
| Schedule.DayFlagsDistinct | Assets/Scripts/Transit/Schedule.cs:14-20 | the flag of each day has exactly that day set (with line 204) |
| Schedule.NamedWeekdaySets | Assets/Scripts/Transit/Schedule.cs:6-21 | `Weekends` holds exactly Saturday and Sunday, `Weekdays` exactly Monday to Friday, `All` every day and `None` none |
| Schedule.IsBetweenShape | Assets/Scripts/Transit/Schedule.cs:239-247 | a range is the half-open interval when its end is later and wraps past midnight otherwise; on the 24-hour clock it is the circular interval from start to end, the whole day when the ends coincide |
| Schedule.ScheduleAtTimeCases | Assets/Scripts/Transit/Schedule.cs:201-223 | no timetable exactly on a non-operating day or outside the operating hours; inside them the night timetable exactly in the night hours, the day timetable otherwise |
| Schedule.DefaultScheduleHours | Assets/Scripts/Transit/Schedule.cs:123-182 | hour by hour which timetable each transit system's default runs; light rail, past the end of the table, has none |
| Schedule.GetNextDateWrongHour | Assets/Scripts/Transit/Schedule.cs:225-228 | as written, from 23:00 the next 4 o'clock comes out as 18:00 |
| Schedule.GetNextDateWrongDay | Assets/Scripts/Transit/Schedule.cs:235-236 | as written, from Saturday 03:00 the next Monday at 4 o'clock comes out as Thursday 04:00, five days on; counting forward gives Monday |
| Schedule.GetNextDateHits | Assets/Scripts/Transit/Schedule.cs:225-237 | with both steps counting forward (the hours at line 227 and the days at line 235), the date found shows the hour asked for at minute 0, falls on the weekday asked for, and lies from the current full hour to less than a day (a week with a weekday) ahead |
| Schedule.NextOperatingDay | Assets/Scripts/Transit/Schedule.cs:255-259 | the loop stops at the first operating day from the current one on |
| Schedule.GetNextDeparture | Assets/Scripts/Transit/Schedule.cs:249-295 | the departure is that of the specification `NextDeparture`, which uses the corrected `GetNextDate` (hours and weekday counted forward): the next operating day's opening, the next opening outside the hours, or the next night or day grid departure |
| Schedule.DayDeparture | Assets/Scripts/Transit/Schedule.cs:283-294 | on the day timetable the departure is strictly later, at most one interval away and on the day grid, or else the next opening time |
| Schedule.Departures | Assets/Scripts/Transit/Schedule.cs:297-308 | exactly `amount` departures, the first the next departure after the current time |
| Schedule.DeparturesChain | Assets/Scripts/Transit/Schedule.cs:300-305 | each listed departure after the first is the next departure a minute after its predecessor |
| Schedule.DeparturesPrefix | Assets/Scripts/Transit/Schedule.cs:297-308 | asking for fewer departures lists a prefix of the longer list |
| Schedule.NextDepartures | Assets/Scripts/Transit/Schedule.cs:297-308 | the array has `amount` entries, and they are the chain of departures each searched a minute after the one before |
| Schedule.ContinuousNextDeparture | Assets/Scripts/Transit/Schedule.cs:41-52 | the first departure when the time is not after it; otherwise a departure on the interval grid no earlier than the time and less than an interval after it |
| Schedule.ContinuousNextIsEarliest | Assets/Scripts/Transit/Schedule.cs:41-52 | no departure of the timetable at or after the current time is earlier than the one returned |
| SnapControllers.FirstEnabledIsFirst | Assets/Scripts/SnapController.cs:171-188 | a snap is found exactly when some registered snap is enabled and applies to the type, and it is the first such in registration order |
| SnapControllers.DisableSkips | Assets/Scripts/SnapController.cs:166-188 | a disabled snap is never returned, and disabling a snap other than the one found changes nothing |
| SnapControllers.EnableOutcome | Assets/Scripts/SnapController.cs:161-188 | enabling a snap leaves the result as it was or makes that snap the result |
| SnapControllers.EndSnap | Assets/Scripts/SnapController.cs:232-290 | the point stays where it is, or moves onto the first or last position; it stays when it is at least the threshold from both, and ends on the last position when the point by then is within the threshold of it |
| SnapControllers.SnapController.constructor | Assets/Scripts/SnapController.cs:63-80 | no snaps, none disabled, none active, no callbacks run, and the registry invariant holds |
| SnapControllers.SnapController.AddStreetSnap | Assets/Scripts/SnapController.cs:82-104 | the new snap gets the next id and is appended as a street snap with the given settings; the invariant is kept |
| SnapControllers.SnapController.AddObjectSnap | Assets/Scripts/SnapController.cs:106-126 | the new snap gets the next id and is appended as a map-object snap of the given type; the invariant is kept |
| SnapControllers.SnapController.AddSnap | Assets/Scripts/SnapController.cs:128-159 | the new snap gets the next id, is a street snap exactly for the street segment type, and starts disabled when added as not enabled |
| SnapControllers.SnapController.EnableSnap | Assets/Scripts/SnapController.cs:161-164 | the id is removed from the disabled set and nothing else changes |
| SnapControllers.SnapController.DisableSnap | Assets/Scripts/SnapController.cs:166-169 | the id is added to the disabled set and nothing else changes |
| SnapControllers.SnapController.GetSnapForObject | Assets/Scripts/SnapController.cs:171-188 | the first enabled snap applying to the object's type; none exactly when no registered snap applies |
| SnapControllers.SnapController.HandleMouseOver | Assets/Scripts/SnapController.cs:190-219 | without a snap nothing changes; otherwise it becomes active, its enter callback runs only when it was not already active, its over callback runs, and the cursor is placed as `SnapToStreet` or `SnapToMapObject` says |
| SnapControllers.SnapController.SnapToStreet | Assets/Scripts/SnapController.cs:234-304 | a street of the wrong kind (a river for a snap that does not snap to rivers, or any other street for one that does) changes nothing; otherwise the cursor sprite is shown at the closest point, or at the end-snapped point when the snap snaps to ends, and the system cursor hides when asked |
| SnapControllers.SnapController.SnapToMapObject | Assets/Scripts/SnapController.cs:306-322 | the snap's cursor sprite is shown at the object's position and the system cursor is hidden |
| SnapControllers.SnapController.HandleMouseExit | Assets/Scripts/SnapController.cs:221-230 | the active snap's exit callback runs if it has one, then no snap is active, the system cursor is visible again and the sprite hidden (with lines 324-330) |
| SnapControllers.IdsDistinct | Assets/Scripts/SnapController.cs:58 | ids are issued one after the other from 0: no two snaps share one and each is below the count (with lines 85 and 109 and 130) |
| StreetIntersection.FromOrdinal | Assets/Scripts/Map/StreetIntersection.cs:11-17 | the cast of 0..3 to a status gives the status with that number (with line 123) |
| StreetIntersection.Next | Assets/Scripts/Map/StreetIntersection.cs:123 | the next status is the one numbered one higher, modulo 4 |
| StreetIntersection.SwitchCycle | Assets/Scripts/Map/StreetIntersection.cs:121-124 | four switches bring a light back to its status, and the three in between differ from it |
| StreetIntersection.LightCycle | Assets/Scripts/Map/StreetIntersection.cs:102-119 | with the red time of n lights every light's full cycle is 16n seconds: 12 s letting cars through (green and yellow) and 16n - 12 s stopping them (red and yellow-red), and n go windows with one 4 s yellow-red hand-over each fill the cycle exactly (with lines 20-23, 34-37 and 147) |
| StreetIntersection.InitialCountdownValue | Assets/Scripts/Map/StreetIntersection.cs:29-32 | a light of green phase k > 0 starts counting down from 16k - 4 seconds |
| StreetIntersection.LightsTakeTurns | Assets/Scripts/Map/StreetIntersection.cs:25-42 | the light of green phase k first turns green at 16k seconds; an earlier light's green and yellow end before a later light shows yellow-red, and the last light's end before light 0 shows yellow-red again one cycle later (with lines 102-124) |
| StreetIntersection.RedAfterCountdown | Assets/Scripts/Map/StreetIntersection.cs:60-76 | the time until the next red is what the switching cycle takes to reach red: zero while the light stops cars, the countdown while yellow, and the countdown plus the whole following yellow phase while green (with lines 102-124 and 147) |
| StreetIntersection.NoStopMeansRedLater | Assets/Scripts/Map/StreetIntersection.cs:60-76 | a light that lets cars through turns red no earlier than its countdown, and its next status is yellow or red (with lines 121-124 and 147) |
| StreetIntersection.TrafficLight.constructor | Assets/Scripts/Map/StreetIntersection.cs:25-42 | more than one light is required; the countdown and red time are those of the phase and light count, and the light starts green exactly for phase 0, red otherwise |
| StreetIntersection.TrafficLight.Switch | Assets/Scripts/Map/StreetIntersection.cs:102-124 | the status moves to the next one and the countdown restarts at that status's duration |
| StreetIntersection.TrafficLight.Update | Assets/Scripts/Map/StreetIntersection.cs:138-145 | when the countdown less the delta is at most zero the light switches; otherwise it keeps its status with the countdown reduced by the delta |
| StreetIntersection.PathIndexUnique | Assets/Scripts/Map/StreetIntersection.cs:615-623 | the index of an intersection path determines both relative positions, so it is unique |
| StreetIntersection.PathIndexDecode | Assets/Scripts/Map/StreetIntersection.cs:616-623 | the path index divided by the column count gives the from-position back and its remainder the to-position |
| StreetIntersection.PathIndexFitsNibble | Assets/Scripts/Map/StreetIntersection.cs:616-623 | with at most four streets every path index is below 16 |
| StreetIntersection.GoalStopsIntersection | Assets/Scripts/Map/StreetIntersection.cs:477-488 | of the intersections given to a path search, only the goal intersection itself reaches an intersection goal |
| StreetIntersection.GoalStopsStreet | Assets/Scripts/Map/StreetIntersection.cs:477-488 | a point on a street is reached exactly at the two intersections at the ends of that street |
| StreetIntersection.DeadEndOnlyWayBack | Assets/Scripts/Map/StreetIntersection.cs:490 | U-turns are allowed only where a single street meets, so the street a car arrives by is the one it leaves by |
| StreetSegment.SetFlagOnlyOwnBit | Assets/Scripts/Map/StreetSegment.cs:176-207 | after a setter its flag reads back as the value given, the other flag keeps its value and no higher bit changes (with lines 11-17) |
| StreetSegment.CumulativeShape | Assets/Scripts/Map/StreetSegment.cs:240-251 | the distances appended are one per point (at least one), start at 0, never decrease and end at the total length |
| StreetSegment.StopLineDistance | Assets/Scripts/Map/StreetSegment.cs:253-285 | the stop line distance is zero exactly for segments of at most 10 m, never above 10 m, and shorter than any longer segment |
| StreetSegment.StopLineMonotone | Assets/Scripts/Map/StreetSegment.cs:253-285 | a longer segment never gets a shorter stop line distance |
| StreetSegment.ParkingCapacity | Assets/Scripts/Map/StreetSegment.cs:288 | the capacity is even, two cars for each whole 15 m of length |
| StreetSegment.LanePositionBounds | Assets/Scripts/Map/StreetSegment.cs:348-365 | every lane is at least one lane from the middle, and on a two-way street at most half the lanes rounded up |
| StreetSegment.MirrorLaneInvolution | Assets/Scripts/Map/StreetSegment.cs:348-385 | for an even lane count mirroring stays in range, swaps the two halves, is its own inverse and keeps the distance from the middle |
| StreetSegment.LanesPerDirection | Assets/Scripts/Map/StreetSegment.cs:795-806 | never more than the lanes; on a two-way street half of them, rounded down |
| StreetSegment.OppositeIntersection | Assets/Scripts/Map/StreetSegment.cs:615-618 | seen from one end the opposite intersection is the other end, and taking it twice returns to the start |
| StreetSegment.StreetSegment.SetOneWay | Assets/Scripts/Map/StreetSegment.cs:176-190 | only the one-way bit changes, to the value given; the bridge flag and the other fields are kept |
| StreetSegment.StreetSegment.SetBridge | Assets/Scripts/Map/StreetSegment.cs:193-207 | only the bridge bit changes, to the value given; the one-way flag and the other fields are kept |
| StreetSegment.StreetSegment.CalculateLength | Assets/Scripts/Map/StreetSegment.cs:238-289 | the length is the polyline length, the cumulative distances are appended to the list, and both stop line distances and the parking capacity follow from the length |
| TrafficSimulator.FourWayTurns | Assets/Scripts/Simulation/TrafficSimulator.cs:458-480 | at a four-way intersection the turn is right exactly one position on, left exactly three on and straight exactly two on, counted round the intersection |
| TrafficSimulator.TurnTypeByStreetCount | Assets/Scripts/Simulation/TrafficSimulator.cs:442-483 | a U-turn exactly at a dead end or back onto the same street; straight through a two-street intersection; unclassified exactly beyond four streets |
| TrafficSimulator.ConflictingTurnsShape | Assets/Scripts/Simulation/TrafficSimulator.cs:581-935 | the table is symmetric in the two positions, always true for an unclassified other turn, with a left-turning other car true only for a right turn from the neighbouring street, and for the same street only when the other turn is unclassified |
| TrafficSimulator.TrafficFactorRange | Assets/Scripts/Simulation/TrafficSimulator.cs:192-232 | every hour has a factor from 1.1 to 2.5, the highest exactly from 7 to 9, the lowest exactly from 21 to 3; any other number gives 0 |
| TrafficSimulator.DefaultLaneValid | Assets/Scripts/Simulation/TrafficSimulator.cs:234-240 | the default lane is a lane of the street, a right lane when driving forward, and on an even two-way street the two directions' defaults mirror each other (with lines 526-534) |
| TrafficSimulator.DrivingCar.constructor | Assets/Scripts/Simulation/TrafficSimulator.cs:22-73 | a new car is linked to no other |
| TrafficSimulator.Simulator.constructor | Assets/Scripts/Simulation/TrafficSimulator.cs:165-170 | no segment has a lane array yet |
| TrafficSimulator.Simulator.GetDrivingCars | Assets/Scripts/Simulation/TrafficSimulator.cs:242-251 | an existing lane array is returned unchanged; otherwise a new one with an empty list per lane is stored and returned |
| TrafficSimulator.Insert | Assets/Scripts/Simulation/TrafficSimulator.cs:373-399 | the list with the car at the given place and every other car where it was, shifted behind it |
| TrafficSimulator.Without | Assets/Scripts/Simulation/TrafficSimulator.cs:419-440 | the list without the car at the given place, the others kept in order |
| TrafficSimulator.InsertSorted | Assets/Scripts/Simulation/TrafficSimulator.cs:379-399 | a car placed between one no farther and one no nearer keeps the lane sorted by distance from the start |
| TrafficSimulator.LinkIn | Assets/Scripts/Simulation/TrafficSimulator.cs:375-399 | after the link updates the lane's head and `Next`/`Prev` links are exactly those of the list with the new car inserted; other lanes keep their heads |
| TrafficSimulator.Unlink | Assets/Scripts/Simulation/TrafficSimulator.cs:424-439 | after the link updates the lane's head and links are those of the list without the car, whose own links are cleared |
| TrafficSimulator.WalkToPlace | Assets/Scripts/Simulation/TrafficSimulator.cs:388-391 | the walk stops at the last car nearer than the distance (or the head), whose successor is absent or at least as far |
| TrafficSimulator.FindPlace | Assets/Scripts/Simulation/TrafficSimulator.cs:374-399 | the new car's place is the front exactly when the lane is empty or its head is beyond the distance, and otherwise directly behind a car no farther away and before one no nearer, with every car after the head and before the place strictly nearer the start |
| TrafficSimulator.EnterLane | Assets/Scripts/Simulation/TrafficSimulator.cs:356-399 | the lane's list becomes the old one with the car inserted, still doubly linked and sorted by distance; the car goes in front exactly when the lane is empty or its head is beyond the distance, and otherwise before the first car after the head that is not nearer the start; other lanes and distances are unchanged |
| TrafficSimulator.EnterNewCar | Assets/Scripts/Simulation/TrafficSimulator.cs:410-417 | a fresh car is entered at the place `EnterLane` gives, with the same guarantees on the list, the other lanes' heads and the old cars' distances |
| TrafficSimulator.ExitLane | Assets/Scripts/Simulation/TrafficSimulator.cs:419-440 | the lane's list becomes the old one without the car, still linked and sorted, the head moving when the car was first; the car's links are cleared |
| TransitMaps.ReverseHeading | Assets/Scripts/Transit/TransitMap.cs:101-120 | a heading turned round by 180 degrees gets the opposite compass direction, for every heading but 135 degrees |
| TransitMaps.ReverseHeadingBoundary | Assets/Scripts/Transit/TransitMap.cs:104-119 | 135 degrees is West but 315 degrees is South, not East: the bounds are not symmetric |
| TransitMaps.StopGridShape | Assets/Scripts/Transit/TransitMap.cs:132-176 | a new grid has four rows, north and south of the width and west and east of the height, every slot free and unreserved and knowing its place, and at least one slot per route heading each way |
| TransitMaps.StopGridDropped | Assets/Scripts/Transit/TransitMap.cs:125-153 | the grid is dropped exactly when at most one line serves the stop or no direction has more than one route heading that way |
| TransitMaps.Clamp | Assets/Scripts/Transit/TransitMap.cs:392 | the clamped value lies in the range, and a value already inside it is kept |
| TransitMaps.SearchFinds | Assets/Scripts/Transit/TransitMap.cs:394-427 | the circular search returns the first slot free for the line in search order from the desired one, and nothing exactly when no slot of the row is free |
| TransitMaps.TakeEffect | Assets/Scripts/Transit/TransitMap.cs:398-410 | taking a slot keeps the grid well formed, puts the route on it with no reservation, reserves the opposite slot at the same index when asked, and changes no other slot |
| TransitMaps.TransitMap.constructor | Assets/Scripts/Transit/TransitMap.cs:43-47 | no stop has slots and no route an assignment |
| TransitMaps.TransitMap.UpdateStop | Assets/Scripts/Transit/TransitMap.cs:123-181 | the stop's grid is replaced by a fresh one, or removed when none is needed; route assignments are untouched and the grids stay well formed |
| TransitMaps.TransitMap.BuildGrid | Assets/Scripts/Transit/TransitMap.cs:156-176 | the loops build four rows of free, unreserved slots, north and south of the width and west and east of the height |
| TransitMaps.TransitMap.AssignSlotIn | Assets/Scripts/Transit/TransitMap.cs:386-428 | when the search from the clamped desired slot finds a slot, that slot is taken as `Take` says and recorded for the route and stop; when none is free nothing changes and the result is none |
| TransitMaps.TransitMap.FindFree | Assets/Scripts/Transit/TransitMap.cs:386-423 | the scan from the clamped desired index, wrapping around, returns the slot the circular search defines, always an index of the direction's slots |
| TransitMaps.TransitMap.AssignSlot | Assets/Scripts/Transit/TransitMap.cs:243-383 | no result and no change for a stop without slots; otherwise the slot the search finds from the approach's desired index and whether it is the one desired, with the slot taken by the route, the opposite one reserved unless an opposite assignment is handed on, and the route's assignment recorded; when no slot is free nothing changes |
| TransitMaps.Approach | Assets/Scripts/Transit/TransitMap.cs:341-376 | a backward search starts from the row's last slot and happens only for a route with an outgoing direction; otherwise the desired slot is the parallel opposite assignment's index, or 0 (with lines 272-278) |
| TransitMaps.OutCardinal | Assets/Scripts/Transit/TransitMap.cs:292-339 | a destination on the right leaves West and one on the left East, unless the angle within its quadrant is under 15 degrees, when it takes the opposite route's heading |
| TransitMaps.ApproachInRow | Assets/Scripts/Transit/TransitMap.cs:341-376 | a backward search's start and, without an opposite assignment, the desired slot lie in the row, so clamping keeps them (with lines 272-278 and 392) |
| TriangleApi.LoopSegments | Assets/Scripts/Utility/TriangleAPI.cs:44-50 | a loop of n vertices gets exactly n segments |
| TriangleApi.LoopClosed | Assets/Scripts/Utility/TriangleAPI.cs:44-50 | segment i leaves vertex offset + i, each segment ends where the next starts, and the last ends at the loop's first vertex |
| TriangleApi.Starts | Assets/Scripts/Utility/TriangleAPI.cs:45 | one boundary marker per loop |
| TriangleApi.OutlineShape | Assets/Scripts/Utility/TriangleAPI.cs:36-51 | the outline has one segment per vertex, and every segment joins two vertices of the graph |
| TriangleApi.StartsRise | Assets/Scripts/Utility/TriangleAPI.cs:44-45 | each loop's marker names one of its segments, and the markers rise strictly |
| TriangleApi.Pslg.constructor | Assets/Scripts/Utility/TriangleAPI.cs:15-21 | a new graph has no vertices, segments, holes or markers |
| TriangleApi.Pslg.FromLoop | Assets/Scripts/Utility/TriangleAPI.cs:23-26 | the graph of one loop: empty for fewer than three vertices, otherwise the vertices, the loop's segments from 0 and the marker 0 |
| TriangleApi.Pslg.AddVertexLoop | Assets/Scripts/Utility/TriangleAPI.cs:36-51 | fewer than three vertices change nothing; otherwise the vertices are appended, the segment count is marked and the loop's segments are appended, numbered from it; the graph stays valid |
| TriangleApi.Pslg.AddOrderedVertices | Assets/Scripts/Utility/TriangleAPI.cs:53-61 | the same effect as `AddVertexLoop` on the array's vertices |
| TriangleApi.Pslg.AddHole | Assets/Scripts/Utility/TriangleAPI.cs:63-79 | fewer than three vertices change nothing; otherwise one new hole, the graph of that loop, is appended and the outline is untouched |
| TriangleApi.Pslg.GetNumberOfSegments | Assets/Scripts/Utility/TriangleAPI.cs:81-90 | the vertex count plus every hole's segments, which in a valid graph is the outline's segment count plus the holes' |
| TriangleApi.ExtendValid | Assets/Scripts/Utility/TriangleAPI.cs:43-50 | adding a loop of three or more vertices to a valid outline keeps it valid, its segments numbered from the old vertex count |
| TriangleApi.EmptyIffNoLoops | Assets/Scripts/Utility/TriangleAPI.cs:28-34 | a valid graph is empty exactly when no loop was added, and then it has no segments or markers |

## Left out

- Floating point: `float` and `decimal` are exact `real`s. Rounding, `NaN` and infinities are not modelled except where stated below.
- Unity and the frame loop: game objects, sprites, meshes as rendered, materials, colours, input events and `MonoBehaviour` start-up are not part of this model. Where a method reads the game clock, the money or a map query, the value is a parameter.
- Randomness: every draw from the random number generator is a parameter, so the lemmas hold for every draw.
- I/O: files, player preferences, resources loaded by `Resources.Load`, web requests, protobuf and the external triangulator process are not part of this model. Their contents are parameters.
- Corrected members: where the source has a defect listed under "## Findings", the corrected member is the one the rest of the model uses. A member that models the code as written sits beside it.
- Units: `SimulationController.BaseSpeedMultiplier` is the parameter `baseSpeed`. The `TimeSpan` wrapper struct, which the source has commented out, is not modelled; spans are seconds.
- Extensions: only the dictionary, list, date and weekday extensions are modelled. The game-object, transform, vector, timer and drawing extensions are Unity plumbing.
- UndoStack: the actions' callbacks are code outside this model. They are recorded as an effect log.
- Translator: the loading of language files and `SetActiveLanguage` are not modelled. The table is built from a list whose keys are distinct.
- Translator: culture-specific date and number formatting (`GetDate`, `GetNumber`) and `AddCurrency` are not modelled. The number text of `GetCurrency` is a parameter; only its sign and symbol rule are modelled.
- Commands: the handlers of the generated commands are code outside this model. The parser's outcome names the handler and its arguments. Parsing `double` and `decimal` text is a parameter; `int.TryParse` is modelled with its white space, sign and 32-bit range.
- DecimalText.TryParseInt: the culture's sign symbols are taken to be `-` and `+`. The trailing NUL characters that .NET also accepts are not modelled.
- DeveloperConsoles: the other console commands call other subsystems and are not modelled. The key handling is modelled as the cursor moves of Up and Down.
- NameGenerator: the `LastName` property's random pick is not modelled beyond `LoadFile`'s split. The lists' text is a parameter.
- ImportArea: the web requests, the polygon and `.pbf` extraction, the country taken from `display_name`, the loop over admin levels (TblGen/ImportArea.py:76-86) and the rebuild with cmake and make are not modelled.
- Buildings: `float` rounding of the area is not modelled. `UpdateStreet` and the building colour are rendering.
- Buildings: the declaration of the occupancy kinds is not part of this model. Their order is assumed as given in building.dfy, with `ParkingCitizen` last.
- Citizens: the random preferences, icons and points of interest are not modelled. The same holds for `Update`, `FollowPath`, the id counter and serialisation.
- Citizens.Citizen.UpdateHappiness: the order in which the influences dictionary is enumerated is not specified by .NET (a key added after a removal can take the freed slot), so it is a parameter, any arrangement of the influences; the model does not say which one the runtime picks.
- CitizenBuilders: `NextDecimal` is not part of this model. A money draw is `lo + u * (hi - lo)` for a parameter `u` in [0, 1).
- CitizenSchedules: the destinations and travel times are parameters. `Array.Sort`, which is unstable, is modelled as a stable insertion sort. A missing array of fixed events counts as empty.
- CitizenSchedules.Schedule.GetNextFixedEvent: the source recurses day after day without end when no event is eligible. The model searches seven days and returns none, and a lemma shows that no later day would match.
- FinanceControllers: rounding of `decimal` to 28 digits, the UI and `Start` are not modelled.
- IDM: the acceleration and car-following model is floating-point dynamics and is not modelled. The per-segment-pair mask cache is memoisation; the mask is computed directly.
- IDM: `ulong` is a natural number below 2^64, with addition and subtraction taken modulo 2^64.
- MeshBuilders: the Bezier, curve and smooth-line builders, `GetSmallestSurroundingRect` and `Blur` are floating-point numerics. `magnitude` and the sharp-angle test are function parameters.
- MeshBuilders.GetCollisionRect: for no points the source returns a rectangle from infinities; the model returns none.
- MultiMesh: `LoadMeshes` and the game objects that show the meshes are not modelled.
- Translator.FormatTime: requires a clock with a non-zero number of hours and a buffer at least as long as the time text. The source divides by the clock's hours at Translator.cs:314, which throws `DivideByZeroException` for a zero (except at hour 0, which skips the division), and writes past a shorter buffer, which throws `IndexOutOfRangeException`. Neither throw is modelled: every language's date format is taken to be well formed.
- Translator.FormatTimeString: requires the same clock and a `maxTimeStringLength` at least as long as the time text. A shorter length makes the source throw `IndexOutOfRangeException` inside `FormatTime` (Translator.cs:290-296); as above, this throw is not modelled.
- MathUtil.MakeHullPresorted: the contract proves that both chains turn strictly right at every inner vertex. It does not prove that every input point lies inside the hull, nor that the turns where the two chains meet are right turns. Both depend on the input being sorted, which the method does not check, and on orientation facts about real coordinates that are not modelled.
- Lines: the colour, material, vehicles and Unity route objects are not modelled. `Route.Initialize` is not modelled, so a route's length is given.
- Paths: the Bezier segment kinds are not modelled. `magnitude` and `normalized` are the parameters `norm` and `unit`.
- Objectives: the game time and the money are parameters. `EstimateProgress` of a money task with requirement 0 divides by zero in the source; the model returns none.
- PathPlanning: `ReconstructPath` (Assets/Scripts/Transit/PathPlanningCar.cs:900-1016) is not modelled, and neither is the path the search returns. The model proves the scores and sets of the search.
- PathPlanning: `FindClosestDrive` (1174-1291), `FindFastestTransitRoute` (1293-1323), `GetNearestIntersection` and `GetPositionOnLane` query the map. `FindClosestPath` takes the costs they find as parameters.
- PathPlanning: the duration estimate of each path step is a given number of seconds. The order in which `Lowest` visits the open `HashSet` is left open: the member promises some element of least score.
- Schedule.GetNextDeparture: requires an operating day and positive intervals. Without an operating day the source's loop (Assets/Scripts/Transit/Schedule.cs:255-259) never ends, and with a zero interval it divides by zero.
- Schedule: `OffsetSchedule`, `DelayedSchedule` (321-364) and serialisation are not modelled. `GetDefaultSchedule` indexes past its table for light rail, which the model gives as none.
- SnapControllers: sprites, game objects and the mouse listeners are not modelled. The closest point on the street or lane and its distance are parameters of `HandleMouseOver`.
- StreetIntersection: the traffic-light id counter, the sprites, the deserialising constructor, the intersection patterns, the meshes and `CalculateRelativePositions` are not modelled. The relative positions are given.
- StreetSegment: `UpdateDrivablePositions`, the meshes and the colours are not modelled.
- StreetSegment.StopLineDistance: the contract states the four distance bands and their order. It does not state the 3 m and 5 m offsets inside the bands.
- TrafficSimulator: the `NextTurn` and `NextLane` set-up after a car enters a lane (Assets/Scripts/Simulation/TrafficSimulator.cs:401-407) and `EnterIntersection`/`ExitIntersection` (485-524) are not modelled.
- TrafficSimulator: `GetNextCar`, `GetCompletePath`, `GetStepPath`, `UpdateTrafficLights` and the rendering are not modelled. A lane's list is described by a ghost sequence over the heap nodes.
- TransitMaps: `UpdateLine` (Assets/Scripts/Transit/TransitMap.cs:184-240), the meshes and the geometry that yields the headings are not modelled. Headings and angles are parameters.
- TransitMaps: `Opposite` and `IsParallelTo` are not part of this model. They are taken as the half turn `MathUtil.Reverse` and as "same or reverse direction".
- TriangleApi: the point-in-polygon tests, `Triangulate`, `WritePolyFile` and the external triangulator process are not modelled.

## Findings

| source | as written | input that shows it | evidently intended | confidence | as-written member | corrected member |
|---|---|---|---|---|---|---|
| Assets/Scripts/Simulation/IDM.cs:199-208 | `TryBlock` refuses a car only once 16 cars are on the crossing, but each path's counter is a 4-bit nibble | sixteen cars that all block path 0: the sixteenth carries its counter into path 1, and path 0 then reads as free | admit a car only while fewer than 15 are on the crossing, so no counter overflows | not executed | IDM.SixteenCarsHidePath | IDM.AdmittedCarCounted, IDM.IntersectionStatus.TryBlock |
| Assets/Scripts/Transit/Schedule.cs:225-228 | `GetNextDate` adds `Math.Abs(hour - dt.Hour) % 24` hours | from 23:00, the next 4 o'clock comes out as 18:00 | add the hours up to the next occurrence of `hour`, `(hour - dt.Hour)` taken modulo 24 | not executed | Schedule.GetNextDateWrongHour | Schedule.GetNextDateHits, Schedule.GetNextDeparture |
| Assets/Scripts/Transit/Schedule.cs:235 | `GetNextDate` adds `Math.Abs(day - newDate.DayOfWeek) % 7` days | a line running Monday to Friday and opening at 4, asked on Saturday at 03:00: the operating-day loop stops at Monday, and `GetNextDate` moves to Saturday 04:00 and adds the distance from Monday (1) to Saturday (6), 5 days, giving Thursday 04:00 instead of Monday 04:00 | add the days up to the next occurrence of `day`, `(day - newDate.DayOfWeek)` taken modulo 7 | not executed | Schedule.GetNextDateWrongDay | Schedule.GetNextDateHits, Schedule.GetNextDeparture |
| Assets/Scripts/Localization/Translator.cs:305-315 | `FormatTime` maps hour 0 to 12 in every format, and reduces hours modulo the clock's number of hours | noon on a 12-hour clock is written "00", and midnight on a 24-hour clock "12" | "12" for noon and midnight on a 12-hour clock, and "00" for midnight on a 24-hour clock | not executed | Translator.FormatTimeNoonAndMidnight | Translator.FormatTime |
| TblGen/Backends/Commands.template.cs:39-48 | the closing '"' of a quoted value is read again as an opening one | `cmd "a" b`: the quote stays open, and the value swallows the rest of the line | a closing quote ends the quoted value | not executed | Commands.TokenizeQuoteAsWritten | Commands.TokenizeQuote, Commands.ParseTokens |
| TblGen/Backends/Commands.template.cs:123-129 | a value given by position is assigned to every parameter that is still missing | a command with two parameters and the line `cmd x y`: both get "x", and "y" is logged as superfluous | the value goes to the first missing parameter only | not executed | CommandDispatch.PositionalFillsAllAsWritten | CommandDispatch.PositionalFillsInOrder, CommandDispatch.ParseCommand |
| Assets/Scripts/Utility/NameGenerator.cs:104 | the weighted scan stops at the first name with `sum >= idx` | two names occurring once each, draw 1: the first name is picked, so it takes two of the two draws | `sum > idx`, so that each name is drawn in proportion to its occurrences | not executed | NameGenerator.FirstNameAsWritten | NameGenerator.GetFirstName, NameGenerator.FirstNameWeighted |
| Assets/Scripts/Utility/NameGenerator.cs:304-311 | the female age table tests `rnd < 0.8492f` twice, at line 304 for the bracket 45-49 and at line 308 for the bracket 50-54, so every later test uses the threshold of the bracket before it | no draw gives a woman aged 50 to 54; the draws meant for them give 55 to 59 | thresholds that increase strictly, so every bracket can be drawn | not executed | NameGenerator.GenderAndAgeFinding, NameGenerator.GenderAndAgeFiftiesAsWritten | NameGenerator.GenderAndAgeFifties, NameGenerator.ThresholdsIncrease |
| TblGen/ImportArea.py:96 | the existing definition is found by `find('def ' + name)`, which also matches a longer name | importing "A" into a file holding `def AB` deletes the block of AB | find `def name` only where the name is not continued | not executed | ImportArea.PrefixNameAsWritten | ImportArea.FindDefinitionFrom, ImportArea.TableFiles.Import |
| Assets/Scripts/Map/Building.cs:90-145 | each capacity is cast to `byte`, which wraps modulo 256 | an airport of 256 square metres records room for 0 customers, one of 255 square metres for 255 | saturate at 255, so a larger building never holds fewer | not executed | Buildings.AirportCapacityWraps | Buildings.Capacities, Buildings.ByteSaturate, Buildings.CapacitiesMonotone |
| Assets/Scripts/Simulation/Citizen.cs:341 | `Tired` is added when `Energy < 0f`, checked after the energy was clamped to [0, 100] | setting the energy to 0 or below never makes a citizen tired | add `Tired` when the clamped energy is 0 | not executed | Citizens.TiredNeverAdded, Citizens.Citizen.SetEnergyAsWritten | Citizens.Citizen.SetEnergy, Citizens.TiredExactlyWhenExhausted |
| Assets/Scripts/Simulation/CitizenSchedule.cs:327-328 | the sleep test is `energy < .25f` on an energy scale of 0 to 100, while its comment says 25% | a citizen with energy 10 (a tenth of the full energy) may be sent to exercise | sleep below a quarter of the full energy, 25 | not executed | CitizenSchedules.SleepThresholdFinding | CitizenSchedules.SleepsWhenTired, CitizenSchedules.LeisureEventFits |
| Assets/Scripts/Missions/Objective.cs:333 | a `MaintainAvgHappinessTask` is created with the type tag `TotalMoneyTask` | an average-happiness task of 50 reports the money task type | the task type of its own kind | not executed | Objectives.NewTaskFields | Objectives.NewTask |
| Assets/Scripts/Transit/PathPlanningCar.cs:1088-1094 | the waiting time charged to a route is `TimeSpan.Minutes`, the minutes component | a wait of 75 minutes is charged 15 minutes, and one of 60 minutes 0 | the whole wait, `TotalMinutes` | not executed | PathPlanning.WaitMinutesFinding | PathPlanning.TentativeDuration, PathPlanning.PathPlanner.TentativeCosts |
| Assets/Scripts/UI/DeveloperConsole.cs:204-213 | `settime` checks that the hour is below 24 and the minute below 60, but not that they are non-negative | "-1:30" passes the checks, and `new DateTime` then throws | refuse negative hours and minutes | not executed | DeveloperConsoles.NegativeHourFinding | DeveloperConsoles.ParseTime, DeveloperConsoles.ParseTimeParts, DeveloperConsoles.DeveloperConsole.HandleSetTimeCommand |
| Assets/Scripts/Utility/MeshBuilder.cs:1238-1241 | the running maxima of `GetCollisionRect` start at 0, not at minus infinity | two points left of and below the origin get a rectangle that reaches to the origin | the smallest rectangle holding the points | not executed | MeshBuilders.CollisionRectFinding | MeshBuilders.GetCollisionRect, MeshBuilders.GetCollisionRectOfArrays |
