# Json_handler_CustomTkinter — a verified model of its core

Json_handler_CustomTkinter is a desktop helper for editing JSON payloads. This
project models in Dafny the parts of it that do more than draw widgets:

- **The Sage converter** (`SageHandler`). It turns flat `KEY=VALUE` text into a
  mapping. The source does this in three loops: strip the lines and drop the
  blank ones, split each kept line on `=`, and fill the result. The converter
  also chooses the reference mapping that the type coercion works from.
- **The settings store** (`SettingsHandlers`). The window settings handler
  overwrites known fields from keywords. The filler settings handler has a
  "mono" and a "double" section, each with a preset list and a record of day
  offsets. It changes offsets, adds presets, deletes them, lists their names
  and looks them up. Each write of the settings file is a snapshot appended to
  a `written` field.
- **The screen state machine** (`StatesSwitcher`). This is a fixed map of named
  states with one current state. Calls to the states' `set_state` and
  `remove_state` callbacks are recorded in order in a `trace` field.
- **The decoder error location parser** (`Utils`). It reads single
  characters at fixed offsets from the end of an error message.
- **The date filler** (`FillerHandlers`, on top of `Calendar`). It computes
  five dates from today and four day offsets:
  - four dates are offset by days;
  - one is a calendar month after the `std` date.

  Dates follow the proleptic Gregorian calendar with years 1 to 9999.
  Day arithmetic goes through the ordinal day number. The month step clamps
  the day the way `relativedelta(months=1)` does. Dates are written
  `YYYY-MM-DD`, the extended calendar-date format of section 4.1.2.2 of
  ISO 8601:2004.
- **The table import** (`TablesHandler`). This is the file-ending check and
  the loop that pairs the `variable_name` column with the `variable_value`
  column.

Two modules support the others:

- `PyStr` gives Python's `str.strip` (over the `str.isspace` set),
  `str.split` on one character, and `str.endswith`.
- `Wrappers` gives `Option` and `Result`.

A Python exception becomes a `Failure` naming the exception, with its message
where the source builds one. The state machine is the exception to this: an
unknown state name gives a `raised` flag from `SetNewState`, and `None` from
`Create`.

The form of the model follows the source:

- code that changes state in loops becomes classes and methods with loop
  invariants;
- each such method's result is stated in its ensures, in most cases through
  a specification function;
- the pure code becomes functions and lemmas.

### Behaviour of the source worth knowing

- **Default reference.** Any whitespace-only reference text (`strip() == ""`)
  selects the default root mapping.
- **Value of a line.** A line is split on every `=`. The value is the text
  between the first and the second `=`, and the rest of the line is lost.
- **Line without `=`.** Such a line makes the whole parse fail with
  `IndexError`; it is not skipped.
- **Short error messages.** The debug prints in `parse_error_message` index
  `msg[-4]` and `msg[-12]` before the location is built. So a message shorter
  than 12 characters raises `IndexError`, even when a character that is not a
  digit stands at offset -4. The model keeps the indexing but not the output.
- **Source label typo.** The source label's closing quote stands before its
  last letter (`ключ'и`). The model keeps it as written.

## Model

| member | source | states |
|---|---|---|
| PyStr.Strip | src/handlers/sage_handler.py:37 | `strip()` never lengthens the text |
| PyStr.StripFacts | src/handlers/sage_handler.py:37 | the stripped text is a slice of the line; everything cut off is whitespace; a non-empty result neither starts nor ends with whitespace |
| PyStr.StripEmptyIff | src/handlers/sage_handler.py:37-38 | a line strips to nothing exactly when it is all whitespace |
| PyStr.Find | src/handlers/sage_handler.py:43 | the index of the first occurrence of a character, or the length when it does not occur |
| PyStr.ContainsIff | src/handlers/sage_handler.py:43 | the index-based membership test agrees with sequence membership |
| PyStr.Split | src/handlers/sage_handler.py:43 | `split(sep)` always gives at least one piece |
| PyStr.SplitPieces | src/handlers/sage_handler.py:43 | no piece contains the separator; there is a single piece exactly when the separator does not occur |
| PyStr.JoinSplit | src/handlers/sage_handler.py:43 | joining the pieces with the separator gives the text back |
| PyStr.SplitJoin | src/handlers/sage_handler.py:43 | splitting a join of separator-free pieces gives the pieces back |
| PyStr.SplitFirstPieces | src/handlers/sage_handler.py:43-46 | piece 0 is the text before the first separator; when the separator occurs, piece 1 is the text between the first and the second |
| SageHandler.RetainedLines | src/handlers/sage_handler.py:36-39 | the first loop keeps at most as many lines as it reads |
| SageHandler.SplitAll | src/handlers/sage_handler.py:42-43 | one piece list per kept line, each that line split on every `=` |
| SageHandler.Entries | src/handlers/sage_handler.py:45-46 | the only way the filling loop fails is `IndexError` |
| SageHandler.ConvertSageVarsStringToDict | src/handlers/sage_handler.py:31-48 | the three loops compute the specification `SageVars` of the input text |
| SageHandler.KeepNonBlankLines | src/handlers/sage_handler.py:34-39 | the first loop yields the stripped non-blank lines in order (`RetainedLines`) |
| SageHandler.SplitLinesOnEquals | src/handlers/sage_handler.py:41-43 | the second loop yields `SplitAll` of the kept lines |
| SageHandler.FillEntries | src/handlers/sage_handler.py:45-46 | the third loop yields `Entries`, and stops at the first line without a second piece with `IndexError` |
| SageHandler.KeyValueOfLine | src/handlers/sage_handler.py:43-46 | the key is the stripped text before the first `=` (the whole line if it has none); the value is the stripped text between the first and the second `=` |
| SageHandler.EntriesFailureSticks | src/handlers/sage_handler.py:45-46 | once a prefix of the lines fails, the whole parse fails |
| SageHandler.RetainedLinesAppend | src/handlers/sage_handler.py:36-39 | keeping lines distributes over concatenation of the input |
| SageHandler.BlankLineIgnored | src/handlers/sage_handler.py:34-39 | inserting an empty or whitespace-only line changes neither the kept lines nor the result |
| SageHandler.BlankOnlyIsEmpty | src/handlers/sage_handler.py:32-48 | input made only of blank lines gives the empty mapping |
| SageHandler.RetainedLinesMembers | src/handlers/sage_handler.py:36-39 | every kept line is the stripped form of a non-blank input line, and every non-blank input line is kept |
| SageHandler.EntriesFailsIff | src/handlers/sage_handler.py:43-46 | the parse fails if and only if some kept line has no `=` |
| SageHandler.EntriesKeys | src/handlers/sage_handler.py:45-46 | the keys of a successful parse are exactly the stripped keys of the kept lines |
| SageHandler.EntriesLastWins | src/handlers/sage_handler.py:45-46 | a key's value is that of the last kept line with that key |
| SageHandler.SelectReference | src/handlers/sage_handler.py:15-21 | a mapping is used as is; a whitespace-only text selects the default root mapping; other text is converted, and a conversion failure is re-raised |
| SageHandler.ConvertSageStrToDictWithCorrectingTypes | src/handlers/sage_handler.py:5-28 | a parse failure is raised first; after a successful parse the outcome is that of choosing the reference, then coercing the values after it (a coercion failure re-raised), then exporting |
| SettingsHandlers.UpdatedSettings | src/handlers/settings_handlers.py:57-62 | the field names stay the same; a field named by a keyword takes its value; every other field keeps its value; other keywords are dropped |
| SettingsHandlers.WindowSettingsHandler.constructor | src/handlers/settings_handlers.py:35-38 | the handler holds the record read and has written nothing |
| SettingsHandlers.WindowSettingsHandler.SetNewSettings | src/handlers/settings_handlers.py:57-63 | the loop over the keywords stores `UpdatedSettings` of the old record and writes it once |
| SettingsHandlers.Names | src/handlers/settings_handlers.py:124-133 | the names of the presets, in list order |
| SettingsHandlers.FirstNamed | src/handlers/settings_handlers.py:159-163 | the index of the first preset with the name, with no earlier match, or the length when none matches |
| SettingsHandlers.ApplyDates | src/handlers/settings_handlers.py:100-104 | applying keywords to the offsets keeps the set of offset names |
| SettingsHandlers.FillerSettingsHandler.constructor | src/handlers/settings_handlers.py:73-76 | the handler holds the settings read and has written nothing |
| SettingsHandlers.FillerSettingsHandler.SetNewDataSettings | src/handlers/settings_handlers.py:95-111 | fails if and only if `ApplyDates` fails, with its `KeyError`, and then nothing is stored or written; on success only the chosen section's offsets change, to `ApplyDates`, and the settings are written once |
| SettingsHandlers.FillerSettingsHandler.AddNewPreset | src/handlers/settings_handlers.py:113-142 | a mono preset goes to the end of the mono list and any other to the double list; a name already in that list raises `PresetException("Preset with name: '…' already exist")`, and nothing changes or is written |
| SettingsHandlers.FillerSettingsHandler.DeletePresetByName | src/handlers/settings_handlers.py:144-178 | fails if and only if no preset of the chosen list has the name, raising `PresetException("No preset with name: '…'")` with nothing changed or written; otherwise the first preset with the name is removed and the settings are written |
| SettingsHandlers.FillerSettingsHandler.GetAllPresetsNames | src/handlers/settings_handlers.py:180-184 | the names of the chosen list, in list order |
| SettingsHandlers.FillerSettingsHandler.GetPresetByName | src/handlers/settings_handlers.py:190-199 | succeeds if and only if the name is in the chosen list, returning the first preset with it (the one at `FirstNamed`); otherwise raises `PresetException` |
| SettingsHandlers.AddKeepsNamesUnique | src/handlers/settings_handlers.py:124-135 | adding a preset with a new name keeps the names unique |
| SettingsHandlers.RemoveFirstNamed | src/handlers/settings_handlers.py:158-163 | a name no preset has leaves the list as it is; otherwise the list loses exactly one preset |
| SettingsHandlers.RemoveFirstNamedShape | src/handlers/settings_handlers.py:159-163 | the deletion removes exactly the first preset with the name and keeps the order of the rest |
| SettingsHandlers.RemoveFirstNamedRemovesName | src/handlers/settings_handlers.py:159-163 | with unique names, the deleted name is gone and the rest stay unique |
| SettingsHandlers.DeleteUndoesAdd | src/handlers/settings_handlers.py:123-163 | deleting a preset just added under a new name restores the list |
| SettingsHandlers.ApplyDatesFailsIff | src/handlers/settings_handlers.py:100-104 | the keywords fail if and only if one names no offset; the error names the first such keyword |
| SettingsHandlers.ApplyDatesFailsExactly | src/handlers/settings_handlers.py:100-104 | the keywords fail if and only if one of them names no offset |
| SettingsHandlers.ApplyDatesFirstUnknown | src/handlers/settings_handlers.py:100-104 | a failure is the `KeyError` of the first keyword that names no offset |
| SettingsHandlers.ApplyDatesUntouched | src/handlers/settings_handlers.py:100-102 | an offset no keyword names keeps its value |
| SettingsHandlers.ApplyDatesLastWins | src/handlers/settings_handlers.py:100-102 | an offset named more than once takes the last keyword's value |
| StatesSwitcher.BracketedStep | src/window/StatesSwitcher.py:45-50 | removing the last state set and setting another keeps the callback history in set/remove pairs |
| StatesSwitcher.StateSwitcher.constructor | src/window/StatesSwitcher.py:19-36 | the start state is current, the state map is the one given, and only the start state's `set_state` was called |
| StatesSwitcher.StateSwitcher.SetNewState | src/window/StatesSwitcher.py:38-57 | raises if and only if the name is unknown, and then nothing changes; otherwise the history grows by `remove_state` of the old state, then `set_state` of the new one, which becomes current; the invariant (current is a key, history paired) is kept |
| StatesSwitcher.StateSwitcher.IsStateInStates | src/window/StatesSwitcher.py:52-57 | the check passes exactly when the name is a key of the state map |
| StatesSwitcher.StateSwitcher.GetCurrentStateName | src/window/StatesSwitcher.py:59-60 | the current name is a key of the state map |
| StatesSwitcher.StateSwitcher.GetCurrentState | src/window/StatesSwitcher.py:62-64 | the current state object is the last one whose `set_state` was called |
| StatesSwitcher.Create | src/window/StatesSwitcher.py:19-36 | construction fails if and only if the start name is not a key; otherwise it is the constructor's state |
| Utils.FromEnd | src/utils/utils.py:8-15 | `s[-k]` succeeds if and only if the text has at least `k` characters, giving the `k`-th from the end; otherwise `IndexError` |
| Utils.DigitOf | src/utils/utils.py:13-15 | `int` of one character succeeds if and only if it is a decimal digit, giving its value 0 to 9; otherwise `ValueError` naming the character |
| Utils.ParseErrorMessage | src/utils/utils.py:5-16 | succeeds if and only if the message has at least 21 characters and digits at offsets -4, -12 and -21; the location is the destination label exactly when the last character is `T`; `char`, `column` and `line` are those digits |
| Utils.ParseErrorMessageErrors | src/utils/utils.py:8-15 | the error raised: `IndexError` below 12 characters, then `ValueError` for the -4 and the -12 characters, `IndexError` below 21, `ValueError` for the -21 character |
| Utils.NeverUnexpected | src/utils/utils.py:17-20 | `UnexpectedErrorMessage` is never raised |
| Utils.OnlyFourPositionsMatter | src/utils/utils.py:8-16 | messages of the same length that agree at offsets -1, -4, -12 and -21 give the same result |
| Utils.Example | src/utils/utils.py:5-23 | `"line 2 column 1 (char 2)-T"` gives the destination label, char 2, column 1, line 2 |
| Calendar.DaysBeforeYearClosedForm | src/handlers/filler_handlers.py:10-13 | counting the days of the years before `y` one year at a time gives `365 * p + p / 4 - p / 100 + p / 400` for `p = y - 1` |
| Calendar.OrdinalBounds | src/handlers/filler_handlers.py:10-13 | valid dates have ordinals 1 to 3652059, with the first and last dates at the ends |
| Calendar.OrdinalRange | src/handlers/filler_handlers.py:10-13 | every valid date has an ordinal from 1 to 3652059 |
| Calendar.OrdinalFirst | src/handlers/filler_handlers.py:10-13 | ordinal 1 is 0001-01-01 and no other date |
| Calendar.OrdinalLast | src/handlers/filler_handlers.py:10-13 | ordinal 3652059 is 9999-12-31 and no other date |
| Calendar.OrdinalInjective | src/handlers/filler_handlers.py:10-13 | two valid dates with the same ordinal are equal |
| Calendar.NextDay | src/handlers/filler_handlers.py:10-13 | the next day is a valid date one ordinal later |
| Calendar.PrevDay | src/handlers/filler_handlers.py:10-13 | the previous day is a valid date one ordinal earlier |
| Calendar.AddDays | src/handlers/filler_handlers.py:10-13 | walking `n` days from a valid date stays a valid date |
| Calendar.AddDaysOrdinal | src/handlers/filler_handlers.py:10-13 | while the ordinal stays in 1 to 3652059, walking `n` days adds `n` to the ordinal |
| Calendar.ForwardOrdinal | src/handlers/filler_handlers.py:10-13 | walking forward `n` days adds `n` to the ordinal when it stays at most 3652059 |
| Calendar.BackwardOrdinal | src/handlers/filler_handlers.py:10-13 | walking back `n` days takes `n` from the ordinal when it stays at least 1 |
| Calendar.PlusDays | src/handlers/filler_handlers.py:10-13 | `date + timedelta(days=n)` succeeds if and only if the ordinal stays in range, then with that ordinal; otherwise `OverflowError` |
| Calendar.PlusDaysTwice | src/handlers/filler_handlers.py:10-13 | adding `m` then `n` days is adding `m + n` days |
| Calendar.AddOneMonth | src/handlers/filler_handlers.py:14 | fails if and only if the date is in December 9999, with `ValueError("year 10000 is out of range")`; otherwise the next calendar month, the day clamped to its length |
| Calendar.AddOneMonthKeepsSmallDay | src/handlers/filler_handlers.py:14 | a day of at most 28 is kept by the month step |
| Calendar.FormatDate | src/handlers/filler_handlers.py:16-22 | `str(date)` has 10 characters with `-` at positions 4 and 7 |
| Calendar.ParseFormat | src/handlers/filler_handlers.py:16-22 | reading the `YYYY-MM-DD` text of a date gives the date back |
| Calendar.FormatParse | src/handlers/filler_handlers.py:16-22 | a text that reads as a date is that date's rendering |
| FillerHandlers.PlusDaysFromNow | src/handlers/filler_handlers.py:7-22 | fails only with `OverflowError` or `ValueError("year 10000 is out of range")`; on success every field is a `YYYY-MM-DD` text |
| FillerHandlers.DatesFrom | src/handlers/filler_handlers.py:10-22 | from today's date, fails only with `OverflowError` or the year-10000 `ValueError`; on success every field is a `YYYY-MM-DD` text |
| FillerHandlers.TimeOfDayIgnored | src/handlers/filler_handlers.py:8-13 | two `today` values on the same date give the same result |
| FillerHandlers.PlusDaysFromNowDates | src/handlers/filler_handlers.py:7-22 | on success, `date_1`, `date_2`, `date_3` and `std` render today plus their offsets, and `next_std` renders the month after `std` with the day clamped |
| FillerHandlers.PlusDaysFromNowFailsIff | src/handlers/filler_handlers.py:10-14 | fails if and only if an offset leaves years 1 to 9999, or `std` falls in December 9999 |
| FillerHandlers.Example | src/handlers/filler_handlers.py:7-22 | 2024-01-15 with offsets 1, 2, 3, 16 gives 2024-01-16, 2024-01-17, 2024-01-18, 2024-01-31 and the clamped 2024-02-29 |
| TablesHandler.IsSupported | src/handlers/tables_handler.py:16-21 | a path is accepted exactly when it ends with one of the seven listed endings |
| TablesHandler.AnyEndsWith | src/handlers/tables_handler.py:18 | true exactly when the path ends with one of the suffixes |
| TablesHandler.DotXlsxRedundant | src/handlers/tables_handler.py:16-18 | the `.xlsx` entry accepts nothing that `xlsx` does not |
| TablesHandler.AcceptsUndottedSuffix | src/handlers/tables_handler.py:16-18 | `reportxlsm` is accepted |
| TablesHandler.RefusedByLastChar | src/handlers/tables_handler.py:16-21 | a path whose last character ends no suffix is refused |
| TablesHandler.RefusesCsv | src/handlers/tables_handler.py:16-21 | `table.csv` is refused |
| TablesHandler.RefusesXls | src/handlers/tables_handler.py:16-21 | `table.xls` is refused |
| TablesHandler.Paired | src/handlers/tables_handler.py:30-31 | pairing succeeds if and only if every name row has a value row; otherwise it fails at the first missing row |
| TablesHandler.PairColumns | src/handlers/tables_handler.py:30-31 | the pairing loop computes `Paired` |
| TablesHandler.PairedPrefixFails | src/handlers/tables_handler.py:30-31 | a failing prefix of the name column makes the whole pairing fail the same way |
| TablesHandler.PairedKeys | src/handlers/tables_handler.py:30-31 | the keys of the pairing are exactly the values of the name column |
| TablesHandler.PairedLastWins | src/handlers/tables_handler.py:30-31 | each name maps to the value of its last row |
| TablesHandler.MakeJsonFromTable | src/handlers/tables_handler.py:8-34 | an unsupported path raises `ValueError("No support extension")`; a failed open or read of the workbook is re-raised (`ReadError`); a missing name column and then a missing value column raise `KeyError`; with both columns the outcome is that of pairing them, then coercing after the example (a coercion failure re-raised), then exporting |

## Left out

- **Output and the UI.** Logging, the debug and module-level `print` output,
  and the widgets are not modelled. Of the prints, only their indexing of the
  message is kept.
- **The settings file.** Reading it and pydantic's parsing are not modelled;
  constructors take the data read. A write is a snapshot appended to
  `written`, and a failed write (a missing file) is not modelled.
- **Validation.** Pydantic re-validates the record after `set_new_settings`
  and `set_new_data_settings`; the model does not.
- **`get_current_settings`.** Its copy and, for the filler settings, its
  re-read of the file are not modelled.
- **Double presets.** The fields of `DoublePresetModel` and of the double
  section's dates are not known. A double preset keeps its name and an
  uninterpreted map of its other fields. The double section's dates are
  modelled, like the mono section's, as a map from name to day offset.
- **Keyword arguments.** `set_new_data_settings` takes its keywords as a
  sequence of pairs in call order, which is more general than Python's
  duplicate-free keywords. `set_new_settings` takes a map; the order of its
  keywords does not change its result.
- **Today's date.** `datetime.today()` is a parameter. `PlusDaysFromNow` reads
  only its date, which is why the time of day cannot change the result.
- **`timedelta`'s own limit.** The limit of 999999999 days is not modelled
  separately: any offset beyond it already leaves years 1 to 9999.
- **Helpers outside the model.** The following are function-typed
  parameters, because their code is not part of this model, and their
  behaviour is not interpreted: `fix_dict_values_type`,
  `correct_dict_to_export`, `convert_string_to_dict`, `get_root_json_as_dict`,
  and `read_excel(open(path, "rb")).to_dict()`. The last gives the table, or
  the message of what the open or the read raised (a missing file, a
  directory, an unreadable workbook). The model does not tell those
  exceptions apart.
- ConvertSageStrToDictWithCorrectingTypes: the result dicts of the source keep
  their insertion order; the model's `map` does not, so the helpers over it
  cannot depend on key order.
- MakeJsonFromTable: the same holds for the dict the pairing fills.
- ConvertSageStrToDictWithCorrectingTypes: `get_root_json_as_dict` is a total
  function here. If it reads a file and that read raises, the failure is not
  modelled, because its code is not part of this model.
- FillerHandlers.PlusDaysFromNow: takes its settings as a required argument.
  The source's default `settings=None` raises `AttributeError` at the first
  offset read; that call is not modelled.
- **Column lengths.** `read_excel(...).to_dict()` gives every column the
  frame's one index, so the columns have equal length and a value column can
  never lack a row. `Table` does not require equal lengths, so `RowKeyError`
  can only arise in the model.
- **`fill_dict`.** This is an empty stub in the source.
- Utils.ParseErrorMessage: accepts only the ASCII digits `0`–`9` at the three
  digit positions. Python's `int` also accepts other Unicode decimal digits,
  such as `٣`; the model raises `ValueError` for them.
- **State objects.** The states are kept uninterpreted: their `set_state` and
  `remove_state` callbacks are recorded in the trace, not run.
- **Unknown state names.** In the source they raise a bare `Exception`; the
  model returns `raised`, or `None` from `Create`.
