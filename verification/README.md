# Timebox timer: the countdown controllers and the dark-mode preference

The repository holds three independent versions of one React "timebox" timer:
`claudia`, `cursor` and `codex`. In each, the user names a task, picks a duration
in minutes and starts a countdown. A one-second interval takes a second off the
time left, and the session ends at zero. `claudia` and `cursor` also keep the five
most recent completed sessions, newest first, in browser storage. `codex` instead
has pause, resume and reset. Two of the apps also keep a dark-mode preference in
storage.

This Dafny project models those pieces.

- **Controllers.** Each controller is specified by a pure state machine: a `State`
  datatype, an `Event` datatype and `Next`/`Run`. A class with the component's own
  state cells has one method per handler, plus `Tick` for the interval.
  - Each user-action and `Tick` method is proved to perform `Next` and to keep the
    invariant `Valid()`.
  - The mount methods (`LoadHistory`) are proved to perform `Loaded`.
  - The storage helpers (`SaveToLocalStorage`, `AddToHistory`,
    `SaveCompletedTimebox`) are proved to leave exactly the history and storage of
    `Recorded`.
- **What a `Tick` is.** One `Tick` is one interval callback (`prev - 1`) followed by
  the effect React runs on the state that callback left. At zero, that effect
  stops the timer and, in `claudia` and `cursor`, records the session.
- **Controls.** A control that is disabled or not rendered cannot fire. The model
  treats its event as doing nothing.
- **Storage.** Browser storage is a `map<string, string>`. The stored history is the
  text of a JSON array, written and read by a codec (`JsonRecords`) whose round trip
  is proved. This makes "the next mount restores the same history" a theorem about
  the stored text, not an assumption.
- **Clock readings.** `Date.now()`, `toISOString()` and the ko-KR locale string are
  taken at completion. They enter as a `Stamp` parameter of `Tick`.

Modules:

- `Decimal`: the decimal text of a natural number, and its value.
- `FormatTime`: the `MM:SS` readout. The three components share it word for word.
- `HistoryLog`: `[entry, ...history].slice(0, 5)`.
- `JsonRecords`: the stored JSON text.
- `ClaudiaTimer`, `CursorTimer`, `CodexTimer`: the three controllers.
- `DarkModeStorage`: the `darkMode` key and the text of a boolean.
- `CursorApp`: `cursor/src/app.jsx`.
- `ClaudiaTheme`: `claudia/src/ThemeContext.jsx`.

The versions differ in these ways:

- **`claudia`:**
  - history key `timebox-history`;
  - malformed stored text is caught and ignored;
  - a failed write is caught, so the history still updates but storage does not.
- **`cursor`:**
  - history key `timeboxHistory`;
  - malformed stored text makes the mount throw, modelled as a `Failure`/`Some(error)`
    outcome;
  - every completion writes the whole list.
- **`codex`:**
  - no history;
  - start reloads the duration only when the time left is zero, otherwise it resumes;
  - pause and reset are shown only while running, and reset restores the defaults.

## Model

| member | source | states |
|---|---|---|
| Decimal.Digits | codex/src/timeboxTimer.jsx:44-45 | The decimal text of a count is one or more digits with no leading zero, one character exactly below 10 and two from 10 to 99 |
| Decimal.ValueOfDigits | codex/src/timeboxTimer.jsx:44-45 | Reading the decimal text back gives the number: `toString` loses nothing |
| Decimal.ValueOfLeadingZero | codex/src/timeboxTimer.jsx:44-45 | The '0' padding does not change the value of the field |
| FormatTime.PadStart | codex/src/timeboxTimer.jsx:44-45 | `padStart(2, '0')` keeps the value, keeps only digits, and makes the text at least two long (exactly two when it was shorter) |
| FormatTime.FormatTime | codex/src/timeboxTimer.jsx:43-47 | Definition of `formatTime`, identical in claudia:77-81 and cursor:52-56; no contract of its own. Its properties are in `FormatTimeFields`, `ParseFormatTime` and `FormatTimeInjective` |
| FormatTime.FormatTimeFields | codex/src/timeboxTimer.jsx:43-47 | Every readout is `MM:SS`. MM has at least two digits and holds `floor(seconds / 60)`. SS has exactly two digits and holds `seconds % 60`, from 00 to 59. Together they give back `seconds` |
| FormatTime.ParseFormatTime | claudia/src/timeboxTimer.jsx:77-81 | Reading a readout back yields the remaining time it was made from |
| FormatTime.FormatTimeInjective | cursor/src/timeboxTimer.jsx:52-56 | Different remaining times never show the same readout |
| HistoryLog.Prepend | claudia/src/timeboxTimer.jsx:45 | The new history has the new entry first and then the old entries in order; its length is the old length plus one, capped at 5 |
| HistoryLog.PrependEvicts | cursor/src/timeboxTimer.jsx:28 | Below five entries nothing is lost; at five, exactly the oldest entry is dropped |
| HistoryLog.PrependAllKeepsNewest | claudia/src/timeboxTimer.jsx:45 | After any number of completions the history is the newest entries in reverse completion order, then the older ones, at most five in all |
| JsonRecords.EncodeList | claudia/src/timeboxTimer.jsx:29 | Definition of `JSON.stringify` on an array of records; no contract of its own. Its properties are in `DecodeEncodeList` |
| JsonRecords.DecodeList | claudia/src/timeboxTimer.jsx:19 | Definition of `JSON.parse` on that form; no contract of its own. Its properties are in `DecodeEncodeList`, `RejectsLeadingZero` and `TextBodyHasNoRawControl` |
| JsonRecords.RejectsLeadingZero | cursor/src/timeboxTimer.jsx:15 | Every number whose first digit is a '0' followed by another digit is refused, with or without a minus sign, as `JSON.parse` refuses it |
| JsonRecords.TextBodyHasNoRawControl | cursor/src/timeboxTimer.jsx:15 | Every character a string literal that the reader accepts consumes, up to its closing quote, is at least U+0020: a control character is read only escaped, as `JSON.parse` requires. What the reader leaves is the rest of the input |
| JsonRecords.DecodeEncodeList | claudia/src/timeboxTimer.jsx:19-29 | Parsing the text `JSON.stringify` writes for an array of records gives back the same records in the same order |
| ClaudiaTimer.EncodeHistory | claudia/src/timeboxTimer.jsx:29 | Definition of the stored text of a history; no contract of its own. Its properties are in `DecodeEncodeHistory` |
| ClaudiaTimer.DecodeHistory | claudia/src/timeboxTimer.jsx:19 | Definition of reading the stored text back; no contract of its own. Its properties are in `DecodeEncodeHistory` |
| ClaudiaTimer.Loaded | claudia/src/timeboxTimer.jsx:15-24 | Definition of the mount load; no contract of its own. Its properties are in `LoadedHistory` |
| ClaudiaTimer.Recorded | claudia/src/timeboxTimer.jsx:36-48 | Definition of `addToHistory` with its save; no contract of its own. Its properties are in `TickCompletes` and `SaveFailureKeepsHistory` |
| ClaudiaTimer.Next | claudia/src/timeboxTimer.jsx:50-75 | Definition of one event; no contract of its own. Its properties are in `StartGuard`, `StartLoadsDuration`, `TickCountsDown`, `TickCompletes`, `InputsLockedWhileRunning` and `NextConsistent` |
| ClaudiaTimer.DecodeEncodeHistory | claudia/src/timeboxTimer.jsx:27-33 | The stored history text decodes to exactly the saved timeboxes, in order |
| ClaudiaTimer.InitialConsistent | claudia/src/timeboxTimer.jsx:4-8 | The first render has duration 45, is stopped with 0 left, and satisfies the running invariant, also after the mount load |
| ClaudiaTimer.StartLoadsDuration | claudia/src/timeboxTimer.jsx:72-75 | Start sets the time left to `duration * 60` and runs the timer, changing nothing else |
| ClaudiaTimer.StartGuard | claudia/src/timeboxTimer.jsx:151-167 | Start changes the state if and only if the timer is stopped, the task is non-empty and the duration is at least 1 |
| ClaudiaTimer.TickCountsDown | claudia/src/timeboxTimer.jsx:51-54 | A tick takes exactly one second off a running timer with more than one second left and changes nothing on a stopped timer |
| ClaudiaTimer.TickCompletes | claudia/src/timeboxTimer.jsx:55-68 | The tick that reaches zero does four things: it stops the timer; it prepends one entry with the session's task and duration and the tick's clock readings; it keeps at most five entries; and it writes the whole list when the write succeeds, leaving storage untouched when it fails |
| ClaudiaTimer.SaveFailureKeepsHistory | claudia/src/timeboxTimer.jsx:27-33 | A failed write still updates the in-memory history exactly as a successful one would, and leaves storage as it was |
| ClaudiaTimer.InputsLockedWhileRunning | claudia/src/timeboxTimer.jsx:127-149 | While running, no event changes the task or the duration |
| ClaudiaTimer.NextConsistent | claudia/src/timeboxTimer.jsx:50-75 | Every event keeps the invariant that a running session has a task, a duration of at least 1, and between 1 and `duration * 60` seconds left |
| ClaudiaTimer.LoadedHistory | claudia/src/timeboxTimer.jsx:15-24 | The mount restores a stored history that parses. Nothing stored, the empty text, or malformed text all leave the history empty. Storage and the inputs are not touched |
| ClaudiaTimer.SavedHistoryReloads | claudia/src/timeboxTimer.jsx:45-47 | After a completion whose write succeeds, the next mount restores exactly the new history |
| ClaudiaTimer.RunAppend | claudia/src/timeboxTimer.jsx:50-75 | Running a sequence of events and then one more is running the longer sequence |
| ClaudiaTimer.TicksCountDown | claudia/src/timeboxTimer.jsx:51-54 | `k` ticks with more than `k` seconds left only count down by `k` |
| ClaudiaTimer.SessionCompletes | claudia/src/timeboxTimer.jsx:50-75 | A session of `d` minutes completes at exactly the `d * 60`-th tick: stopped, 0 left, and one new history entry for its task and duration |
| ClaudiaTimer.TimeboxTimer.constructor | claudia/src/timeboxTimer.jsx:4-8 | The fields start at the initial state over the given storage |
| ClaudiaTimer.TimeboxTimer.LoadHistory | claudia/src/timeboxTimer.jsx:15-24 | Performs the mount load. Only the history can change |
| ClaudiaTimer.TimeboxTimer.EditTask | claudia/src/timeboxTimer.jsx:127 | The task takes the new text only while stopped |
| ClaudiaTimer.TimeboxTimer.EditDuration | claudia/src/timeboxTimer.jsx:149 | The duration takes the new value only while stopped |
| ClaudiaTimer.TimeboxTimer.Start | claudia/src/timeboxTimer.jsx:72-75 | When enabled, the timer runs with `duration * 60` seconds left; otherwise nothing changes |
| ClaudiaTimer.TimeboxTimer.SaveToLocalStorage | claudia/src/timeboxTimer.jsx:27-33 | The key holds the encoded history after a successful write and is unchanged after a failed one |
| ClaudiaTimer.TimeboxTimer.AddToHistory | claudia/src/timeboxTimer.jsx:36-48 | The history and storage become those of `Recorded` |
| ClaudiaTimer.TimeboxTimer.Tick | claudia/src/timeboxTimer.jsx:50-70 | Performs `Next` for a tick. It counts down by one, completes and records at zero, and leaves a stopped timer unchanged |
| CursorTimer.EncodeHistory | cursor/src/timeboxTimer.jsx:30 | Definition of the stored text of a history; no contract of its own. Its properties are in `DecodeEncodeHistory` |
| CursorTimer.DecodeHistory | cursor/src/timeboxTimer.jsx:15 | Definition of reading the stored text back; no contract of its own. Its properties are in `DecodeEncodeHistory` |
| CursorTimer.Loaded | cursor/src/timeboxTimer.jsx:12-17 | Definition of the mount load, failing where the component throws; no contract of its own. Its properties are in `LoadedHistory` and `RunReloads` |
| CursorTimer.Recorded | cursor/src/timeboxTimer.jsx:20-31 | Definition of `saveCompletedTimebox`; no contract of its own. Its properties are in `TickCompletes` and `RecordedMirrored` |
| CursorTimer.Mirrored | cursor/src/timeboxTimer.jsx:12-30 | Definition of the agreement between the stored text and the history; no contract of its own. It is kept by `NextMirrored` and used by `RunReloads` |
| CursorTimer.Next | cursor/src/timeboxTimer.jsx:33-50 | Definition of one event; no contract of its own. Its properties are in `StartGuard`, `StartLoadsDuration`, `TickCountsDown`, `TickCompletes`, `InputsLockedWhileRunning`, `NextConsistent` and `NextMirrored` |
| CursorTimer.DecodeEncodeHistory | cursor/src/timeboxTimer.jsx:15-30 | The stored history text decodes to exactly the saved timeboxes, in order |
| CursorTimer.StartLoadsDuration | cursor/src/timeboxTimer.jsx:47-50 | Start sets the time left to `duration * 60` and runs the timer, changing nothing else |
| CursorTimer.StartGuard | cursor/src/timeboxTimer.jsx:138-154 | Start changes the state if and only if the timer is stopped, the task is non-empty and the duration is at least 1 |
| CursorTimer.TickCountsDown | cursor/src/timeboxTimer.jsx:34-37 | A tick takes exactly one second off a running timer with more than one second left and changes nothing on a stopped timer |
| CursorTimer.TickCompletes | cursor/src/timeboxTimer.jsx:38-43 | The tick that reaches zero stops the timer, prepends one entry for the session, keeps at most five, and writes the whole list under `timeboxHistory` |
| CursorTimer.InputsLockedWhileRunning | cursor/src/timeboxTimer.jsx:114-136 | While running, no event changes the task or the duration |
| CursorTimer.NextConsistent | cursor/src/timeboxTimer.jsx:33-50 | Every event keeps the running invariant |
| CursorTimer.LoadedHistory | cursor/src/timeboxTimer.jsx:12-17 | The mount restores a stored history that parses and keeps the empty history when nothing or the empty text is stored. It fails with the stored text when that text is malformed. After a successful load, storage mirrors the history |
| CursorTimer.RecordedMirrored | cursor/src/timeboxTimer.jsx:28-30 | After a completion, the stored text decodes to exactly the in-memory history |
| CursorTimer.NextMirrored | cursor/src/timeboxTimer.jsx:20-45 | Every event keeps storage mirroring the history |
| CursorTimer.RunReloads | cursor/src/timeboxTimer.jsx:12-30 | From a mirrored state, after any sequence of events the next mount succeeds and restores exactly the current history |
| CursorTimer.RunAppend | cursor/src/timeboxTimer.jsx:33-50 | Running a sequence of events and then one more is running the longer sequence |
| CursorTimer.TicksCountDown | cursor/src/timeboxTimer.jsx:34-37 | `k` ticks with more than `k` seconds left only count down by `k` |
| CursorTimer.SessionCompletes | cursor/src/timeboxTimer.jsx:33-50 | A session of `d` minutes completes at exactly the `d * 60`-th tick with one new entry for its task and duration |
| CursorTimer.TimeboxTimer.constructor | cursor/src/timeboxTimer.jsx:4-8 | The fields start at the initial state over the given storage |
| CursorTimer.TimeboxTimer.LoadHistory | cursor/src/timeboxTimer.jsx:12-17 | Performs the mount load or reports the throw with nothing changed. A successful load onto the empty history leaves storage mirroring it |
| CursorTimer.TimeboxTimer.EditTask | cursor/src/timeboxTimer.jsx:114 | The task takes the new text only while stopped |
| CursorTimer.TimeboxTimer.EditDuration | cursor/src/timeboxTimer.jsx:136 | The duration takes the new value only while stopped |
| CursorTimer.TimeboxTimer.Start | cursor/src/timeboxTimer.jsx:47-50 | When enabled, the timer runs with `duration * 60` seconds left; otherwise nothing changes |
| CursorTimer.TimeboxTimer.SaveCompletedTimebox | cursor/src/timeboxTimer.jsx:20-31 | The history and storage become those of `Recorded` |
| CursorTimer.TimeboxTimer.Tick | cursor/src/timeboxTimer.jsx:33-45 | Performs `Next` for a tick and keeps storage mirroring the history |
| CodexTimer.Next | codex/src/timeboxTimer.jsx:11-41 | Definition of one event; no contract of its own. Its properties are in `StartOrResume`, `StartGuard`, `PauseFreezes`, `ResetRestoresDefaults`, `ControlsIgnoredWhenStopped`, `TickCountsDown` and `NextConsistent` |
| CodexTimer.StartOrResume | codex/src/timeboxTimer.jsx:23-28 | Start runs the timer. It loads `duration * 60` when the time left is 0 and keeps the time left otherwise, which is a resume after a pause |
| CodexTimer.StartGuard | codex/src/timeboxTimer.jsx:120-137 | Start changes the state if and only if the timer is stopped, the task is non-empty and the duration is at least 1 |
| CodexTimer.PauseFreezes | codex/src/timeboxTimer.jsx:30-33 | Pause stops the timer and keeps the task, the duration and the time left |
| CodexTimer.ResetRestoresDefaults | codex/src/timeboxTimer.jsx:35-41 | Reset while running gives an empty task, 45 minutes, stopped, 0 left |
| CodexTimer.ControlsIgnoredWhenStopped | codex/src/timeboxTimer.jsx:161-196 | While stopped, the pause and reset buttons are not rendered and their events change nothing |
| CodexTimer.TickCountsDown | codex/src/timeboxTimer.jsx:11-21 | A tick takes one second off a running timer, stops it when that leaves 0, and changes nothing while stopped or paused |
| CodexTimer.InputsLockedWhileRunning | codex/src/timeboxTimer.jsx:96-118 | While running, no event other than reset changes the task or the duration |
| CodexTimer.NextConsistent | codex/src/timeboxTimer.jsx:11-41 | Every event keeps the invariant that a running timer has a task, a duration of at least 1 and time left |
| CodexTimer.PausedEditThenResume | codex/src/timeboxTimer.jsx:23-28 | A duration edit while paused does not change the time left: resuming continues from it, and only if the task and the new duration allow a start |
| CodexTimer.RunningTicksSpend | codex/src/timeboxTimer.jsx:11-33 | Within one session, the time left falls by exactly the number of ticks that arrive while running. Pauses, resumes, edits and ticks while paused take nothing |
| CodexTimer.SessionLength | codex/src/timeboxTimer.jsx:11-33 | A session started from 0 with `d` minutes ends stopped after exactly `d * 60` running ticks, however it was paused and resumed |
| CodexTimer.RunConsistent | codex/src/timeboxTimer.jsx:11-41 | Every sequence of events keeps the running invariant |
| CodexTimer.TimeboxTimer.constructor | codex/src/timeboxTimer.jsx:5-8 | The fields start at empty task, 45 minutes, stopped, 0 left |
| CodexTimer.TimeboxTimer.EditTask | codex/src/timeboxTimer.jsx:96 | The task takes the new text only while stopped |
| CodexTimer.TimeboxTimer.EditDuration | codex/src/timeboxTimer.jsx:118 | The duration takes the new value only while stopped |
| CodexTimer.TimeboxTimer.Start | codex/src/timeboxTimer.jsx:23-28 | When enabled, the timer runs with the full duration if it was at 0 and the remaining time otherwise; when not enabled, nothing changes |
| CodexTimer.TimeboxTimer.Pause | codex/src/timeboxTimer.jsx:30-33 | The timer is stopped afterwards; the task, the duration and the time left are kept |
| CodexTimer.TimeboxTimer.Reset | codex/src/timeboxTimer.jsx:35-41 | While running, every field returns to its default; otherwise nothing changes |
| CodexTimer.TimeboxTimer.Tick | codex/src/timeboxTimer.jsx:11-21 | Performs `Next` for a tick. It counts down by one and stops exactly when nothing is left |
| DarkModeStorage.BoolText | cursor/src/app.jsx:29 | A mode is written as "true" exactly when dark and as "false" exactly when light |
| DarkModeStorage.Lookup | cursor/src/app.jsx:13 | `getItem` gives the stored text exactly when the key is present |
| DarkModeStorage.BoolTextInjective | claudia/src/ThemeContext.jsx:63 | Different modes are written as different texts |
| CursorApp.ThemeMode | cursor/src/app.jsx:9 | The palette mode is dark exactly when `isDarkMode` |
| CursorApp.ShouldBeDark | cursor/src/app.jsx:16 | Definition of `shouldBeDark`; no contract of its own. Its properties are in `ShouldBeDarkCases` and `ToggledModeReloads` |
| CursorApp.ShouldBeDarkCases | cursor/src/app.jsx:16 | A non-empty stored text decides the mode: dark if and only if it is "true". A missing or empty one falls back to the system preference. The preference matters exactly when nothing non-empty is stored |
| CursorApp.ToggledModeReloads | cursor/src/app.jsx:16-29 | What the toggle writes resolves on the next mount to the same mode, whatever the system preference |
| CursorApp.App.constructor | cursor/src/app.jsx:8-24 | On mount, the mode is the resolution of the stored text and the system preference; the root `dark` class is present exactly when the mode is dark; storage is not written |
| CursorApp.App.ToggleDarkMode | cursor/src/app.jsx:26-30 | The mode is negated and "true" or "false" is stored to match. Afterwards the stored text alone decides the next mount's mode |
| ClaudiaTheme.ParseBool | claudia/src/ThemeContext.jsx:57 | Only "true" and "false" parse, each back to the boolean whose text it is; any other text is an error carrying that text |
| ClaudiaTheme.LoadedMode | claudia/src/ThemeContext.jsx:54-58 | Definition of the value the load effect leaves; no contract of its own. Its properties are in `PersistedModeReloads` and `MountEffects` |
| ClaudiaTheme.CurrentTheme | claudia/src/ThemeContext.jsx:77 | The dark theme is chosen exactly when `isDarkMode` |
| ClaudiaTheme.ParseBoolText | claudia/src/ThemeContext.jsx:57-63 | Parsing the written text of a mode gives the mode |
| ClaudiaTheme.PersistedModeReloads | claudia/src/ThemeContext.jsx:54-63 | The entry the persist effect writes loads back as the same mode |
| ClaudiaTheme.ThemeContextProvider.constructor | claudia/src/ThemeContext.jsx:51 | The first render is light |
| ClaudiaTheme.ThemeContextProvider.PersistEffect | claudia/src/ThemeContext.jsx:62-71 | After the effect, storage holds the mode's text and the root `dark` class is present exactly in dark mode, and the mode is unchanged |
| ClaudiaTheme.ThemeContextProvider.MountEffects | claudia/src/ThemeContext.jsx:54-71 | The mount throws exactly when the stored entry is not a boolean, and then nothing changes. Otherwise the mode is the stored boolean (light when nothing is stored), and storage and the root class agree with it |
| ClaudiaTheme.ThemeContextProvider.ToggleDarkMode | claudia/src/ThemeContext.jsx:73-75 | The mode is negated. Storage and the root class follow it, and the next mount loads the new mode |

## Left out

- Rendering: JSX, inline styles, Tailwind and MUI classes, icons, tooltips, and the history list's date formatting (`formatDateTime`).
- The theme colour tables in `claudia/src/theme.js` and `cursor/src/theme.js`: `createTheme`/`createAppTheme` are library calls. The model keeps only which of the two themes is chosen.
- Interval scheduling and clean-up, React's effect scheduling, and StrictMode's double effects. Each interval firing is one `Tick`, and at most one interval is assumed live.
- Clock readings: `Date.now()`, `toISOString()` and `toLocaleString('ko-KR', ...)`. Their values arrive in a `Stamp` chosen by the caller.
- The system colour-scheme query `matchMedia`. It is the `prefersDark` parameter.
- `EditDuration`: `Number(e.target.value)` may yield NaN or a fraction. The model has integer durations. With a fractional duration such as 1.01, `duration * 60` is not a whole number, the countdown steps past 0 without equalling it, and the session never completes. The model does not capture this hazard.
- `JsonRecords`:
  - The writer escapes strings as `JSON.stringify` does.
  - The reader keeps JSON's two rules that the writer's form would otherwise let slip: every number with a leading zero is refused (`RejectsLeadingZero`), and a string literal holds no raw control character (`TextBodyHasNoRawControl`). That every text the reader accepts is JSON is not proved as one lemma. Beyond these two rules, the reader's grammar takes only brackets, braces, commas, colons, integers and string literals.
  - The reader does not accept all JSON. It refuses whitespace, another field order or extra fields, fractions and exponents, and the escapes `\/` and `\uXXXX` other than `\u00XX`.
  - An integer beyond 2^53 is read exactly, whereas `JSON.parse` rounds it.
  - Strings are sequences of Unicode scalar values, whereas JavaScript strings are UTF-16 code units: a task name holding a lone surrogate, which `JSON.stringify` writes as `\udXXX`, cannot be represented. `Digits` writes every integer in full, whereas `JSON.stringify` writes a number of 1e21 or more in exponent form.
- `ClaudiaTimer.LoadedHistory` (and `ClaudiaTimer.Loaded`): some stored text is JSON that the reader refuses, either in one of the forms listed above or as a value that is not an array of timeboxes (such as `5`). The model ignores such text; the component would store the parsed value as its history.
- `ClaudiaTimer.TimeboxTimer.LoadHistory`: performs `ClaudiaTimer.Loaded` and shares the gap of the line above.
- `CursorTimer.LoadedHistory` (and `CursorTimer.Loaded`): the same JSON is treated as a throw, whereas the component would keep the parsed value.
- `CursorTimer.TimeboxTimer.LoadHistory`: performs `CursorTimer.Loaded` and shares the gap of the line above.
- The `cursor` history write is modelled as always succeeding. A `setItem` that throws (quota exceeded) is not modelled.
- `ClaudiaTheme.ParseBool` (and `ClaudiaTheme.LoadedMode`, the value the load effect leaves): only the bare texts "true" and "false" are accepted.
  - Stored text that is not JSON makes `JSON.parse` throw, and the model reports an error.
  - Stored JSON that is not a boolean (`null`, numbers) would become a non-boolean `isDarkMode`. The model treats it as an error.
  - A boolean padded with whitespace (such as ` true`) would be read by `JSON.parse` as that boolean. The model also treats it as an error.
- `ClaudiaTheme.ThemeContextProvider.MountEffects`: uses `ParseBool`, so on the stored texts of the line above it reports a throw with nothing changed. The component would throw only on text that is not JSON.
- `CursorApp.App.ToggleDarkMode`: the root `dark` class is left as it was. `cursor/src/DarkModeToggle.jsx` flips it in the button's click handler, and that file is not part of this model.
- `useTheme` throws outside a provider. This is React context plumbing.
- `codex/src/app.jsx` has a dark-mode flag that is never stored. The entry points (`main.jsx`, `claudia/src/app.jsx`) and the Tailwind configuration are not part of this model.
