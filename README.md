# TIL reminder: journal state engine

A Dafny model of the state logic of the "Today I Learned" browser extension: the
popup that keeps a short list of entries per calendar day (at most 10 entries of at
most 280 characters), a 30-day retention sweep, a consecutive-day streak, and the
background worker that reminds the user once a day when nothing has been logged.

Modules, one per concern:

- `Dates` (dates.dfy): instants are integer milliseconds since 1970-01-01T00:00Z;
  days are integers from 1970-01-01. `TodayKey(now)` is `toISOString().slice(0, 10)`
  (the UTC date, including the `±YYYYYY` form for years outside 0000-9999);
  `ParseDayKey` is a strict `YYYY-MM-DD` reader. Every day number converts to a real
  calendar date and back, and every real date converts to a day number and back. A
  day in years 0000-9999 has a `YYYY-MM-DD` key that reads back as that day, and a
  string that reads as a day is exactly that day's key.
- `Text` (text.dfy): `String.prototype.trim` with ECMAScript's white-space set.
- `Storage` (storage.dfy): the stored values (a day's list, the `streak` record, the
  `settings` record), how the code reads them with its `||` defaults, and `Store`,
  the shared `chrome.storage.local` area, with a ghost log of every `set`/`remove`.
- `Popup` (popup.dfy): the pure rules of popup.js (staleness, `isConsecutiveDay`, the
  streak transition, `splice`, submit validation, warning classes) and the class
  `Popup`, whose field `currentEntries` is the in-memory list that submit appends to
  and delete splices, each time writing the whole list back under today's key.
- `Background` (background.dfy): install defaults, the next-fire computation, the
  notify decision, and the class `Background` holding the alarm table (by name,
  create replaces) and the notifications on screen (by id).

Behaviours of the code that the model keeps, some easy to miss:

- The day key is the UTC date (`toISOString`), while the reminder hour is local
  time (`setHours`). Local time is UTC plus a fixed offset parameter.
- The snooze creates its one-shot alarm under the daily alarm's own name, so the
  24-hour repeating alarm is replaced by it (`SnoozeReplacesDailyAlarm`).
- Deleting uses `splice(index, 1)`: an index past the end removes nothing and a
  negative index counts from the end.
- The sweep's `try/catch` never fires: an unparsable key gives an invalid date whose
  difference is NaN, and `NaN > 30` is false, so the key is kept.
- The streak is updated both when the popup opens (`initialize`) and after a submit.
- The first notification button is titled "Open TIL".

## Model

| member | source | states |
|---|---|---|
| Dates.TodayKey | popup.js:6 | today's key is the ten-character prefix of the ISO form of the UTC date |
| Dates.ParseDayKey | popup.js:39 | only ten-character strings with dashes at positions 4 and 7 read as a date |
| Dates.ParseDayKeyCanonical | popup.js:39 | a string that reads as a day is exactly the key written for that day, and the day lies in years 0000-9999 |
| Dates.DaysFromCivilInverse | popup.js:39 | every real calendar date converts to a day number that converts back to the same date |
| Dates.KeyRangeOfCivil | popup.js:39 | every real date in years 0000-9999 is a day whose key has the `YYYY-MM-DD` form |
| Dates.CivilFromDaysInverse | popup.js:6 | every day number names a real calendar date (leap years included), and that date converts back to the same day number |
| Dates.CivilOfEraDayInverse | popup.js:6 | within a 400-year era, every day names a real date that converts back to the same day of the era |
| Dates.ParseDayKeyOfDayKey | popup.js:39 | the key written for a day in years 0000-9999 reads back as exactly that day |
| Dates.DayKeyInjective | popup.js:6 | two different days in years 0000-9999 never share a key |
| Dates.KeysCollideBeyondRange | popup.js:6 | beyond year 9999 the key is cut to `+YYYYYY-MM`, so two different days (10000-01-01 and 10000-01-02) share one key |
| Dates.KeyRangeYears | popup.js:6 | every day from 0000-01-01 to 9999-12-31 falls in a four-digit year, so its key has the `YYYY-MM-DD` form |
| Dates.FirstKeyDay | popup.js:6 | the first day with a four-digit-year key is 0000-01-01; the day before is in year -1 |
| Dates.LastKeyDay | popup.js:6 | the last day with a four-digit-year key is 9999-12-31; the day after is in year 10000 |
| Text.Trim | popup.js:145 | the trimmed text is a contiguous piece of the input with no white space at either end, everything removed is white space, and it is empty iff the input is all white space |
| Text.TrimIdempotent | popup.js:145 | trimming an already trimmed text changes nothing |
| Storage.DayEntries | popup.js:58-59 | a day whose key is absent reads as the empty list; otherwise its stored list |
| Storage.ReadStreak | popup.js:66-67 | a stored streak record reads as stored; a missing one reads as count 0 with an empty last-update day |
| Storage.ReadSettings | background.js:37-38 | a stored settings record reads as stored; missing settings read as absent |
| Storage.Store.Set | popup.js:155 | the given keys now hold the given values, no other key changes, and the call is logged |
| Storage.Store.Remove | popup.js:52 | the given keys are gone, no other key changes, and the call is logged |
| Popup.DaysSince | popup.js:40 | the floored whole-day difference between now and the start of a date is the difference of their UTC day numbers |
| Popup.StaleKeys | popup.js:34-49 | a key is removed iff it is in the store, is neither `streak` nor `settings`, parses as a date, and that date is more than 30 days before today |
| Popup.SweepEstablishesRetention | popup.js:42-44 | after a sweep every remaining date key is at most 30 days old |
| Popup.SweepIdempotent | popup.js:29-54 | a second sweep at the same instant removes nothing |
| Popup.SweepKeepsToday | popup.js:36-44 | the sweep never removes today's own key, for days in years 0000-9999 |
| Popup.IsConsecutiveDay | popup.js:84-91 | true for an empty last day; otherwise true iff both strings are dates and the current one is exactly one day after the last |
| Popup.UpdatedStreak | popup.js:70-77 | no change iff the last update is today or there are no entries; otherwise last update becomes today and the count goes up by one after an empty or previous day and restarts at 1 after any other gap |
| Popup.StreakWritten | popup.js:70-78 | only the `streak` key may change, only when the streak changed, and it then holds the updated streak |
| Popup.StreakWrittenKeepsOtherKeys | popup.js:77 | writing the streak leaves every other stored key as it was |
| Popup.UpdatedStreakBetweenDays | popup.js:70-91 | between two keys that read as different days, the count goes up by one exactly when today is the day after the last update, and restarts at 1 otherwise |
| Popup.StreakExtendsOnNextDay | popup.js:71-72 | logging on the day after the last update increments the count, for days in years 0000-9999 |
| Popup.StreakResetsAfterGap | popup.js:73-74 | logging on any day other than the last update day or the next one sets the count to 1, for days in years 0000-9999 |
| Popup.StreakUnchangedSameDayOrNoEntries | popup.js:70 | a second update on the same day, or an update with no entries, changes nothing in the store |
| Popup.StreakOfThreeConsecutiveDays | popup.js:65-91 | entries on three consecutive days from the initial state give a streak of 3, for days in years 0000-9999 |
| Popup.Splice | popup.js:117 | a valid index removes exactly that element and keeps the others in order (same multiset minus that element); past the end nothing is removed; a negative index counts from the end |
| Popup.SubmitVerdict | popup.js:145-152 | the text is ignored iff its trimmed form is empty or over 280 characters; otherwise refused iff 10 entries are already loaded; otherwise added |
| Popup.EntryCountWarning | popup.js:129-137 | at-limit iff count >= 10; near-limit iff count is 8 or 9; no class iff count < 8 |
| Popup.CharCountOverLimit | popup.js:177-181 | the character counter is over-limit iff the length exceeds 280 |
| Popup.AtLimitMeansSubmitRefused | popup.js:129-152 | for acceptable text, the at-limit class is shown exactly when submit would be refused for the day limit |
| Popup.CharCounterVersusSubmit | popup.js:146 | a counter within the limit guarantees the length check passes, but an over-limit counter (untrimmed length) does not mean the text is refused |
| Popup.Popup.constructor | popup.js:18 | the in-memory list starts empty |
| Popup.Popup.CleanupOldData | popup.js:29-54 | removes exactly the stale keys in one removal call, and makes no call when none is stale |
| Popup.Popup.LoadTodayEntries | popup.js:57-62 | the in-memory list becomes today's stored list, or empty when absent |
| Popup.Popup.UpdateStreak | popup.js:65-81 | the store changes only by the streak transition, with one write exactly when it changed; returns the count shown |
| Popup.Popup.Initialize | popup.js:21-26 | sweep, then load today's list from the swept store, then update the streak; the calls made are the sweep's removal, when anything is stale, then the streak write, when it changed; the count shown is the stored streak's |
| Popup.Popup.DeleteEntry | popup.js:116-121 | the list loses the spliced element, the whole list is written under today's key, and the streak is untouched |
| Popup.Popup.Submit | popup.js:143-163 | unless added, nothing changes; when added the trimmed text is appended at the end, the list has at most 10 entries, it is stored under today's key and the streak is updated, with the list write logged before the streak write |
| Background.WithDefaults | background.js:13-30 | afterwards both singletons exist; a default is written only where the key was absent, and no stored value is overwritten |
| Background.WithDefaultsIdempotent | background.js:16-29 | writing the defaults a second time changes nothing |
| Background.ReminderHour | background.js:38 | the hour is never 0: missing settings or a stored 0 give 20, any other stored hour is used |
| Background.NextFire | background.js:40-47 | for an hour of the day, the fire time is at that local hour, today or tomorrow, strictly after now and at most 24 hours later |
| Background.NextFireIsEarliest | background.js:40-47 | no later instant at that local hour comes before the computed fire time |
| Background.DailyTable | background.js:35-52 | the table holds exactly one alarm, `daily-til`, repeating every 1440 minutes and first firing at the next local reminder hour (from the stored settings, default 20), within the next 24 hours for a stored hour 0-23 |
| Background.ShouldNotify | background.js:56-68 | other alarms never notify, disabled or missing settings never notify, otherwise notify iff today's UTC list is empty or absent |
| Background.Snoozed | background.js:96-101 | the daily alarm's name now holds a one-shot alarm one hour from now; other alarms are kept |
| Background.SnoozeReplacesDailyAlarm | background.js:99-101 | after scheduling and a snooze the table holds a single alarm with no period |
| Background.ReminderCarriesTwoButtons | background.js:72-82 | the reminder has exactly the buttons "Open TIL" and "Remind me later" and requires interaction |
| Background.Background.InitializeStorage | background.js:13-30 | the store becomes its defaults-completed form, with one write per absent singleton |
| Background.Background.ScheduleAlarm | background.js:33-53 | every earlier alarm is gone and only the daily alarm at the next fire time remains |
| Background.Background.OnInstalled | background.js:7-10 | schedules from the settings as they were before the defaults are written, then writes the defaults, with one logged write per absent singleton |
| Background.Background.ShowNotification | background.js:71-85 | the reminder is shown under its id, replacing any earlier one |
| Background.Background.OnAlarm | background.js:56-68 | the reminder is shown exactly when the notify decision holds; nothing else changes |
| Background.Background.OnButtonClicked | background.js:88-105 | other notifications are ignored; button 0 opens the popup, button 1 snoozes, and every handled press clears the reminder (opening the popup always succeeds in the model) |
| Background.Background.OnClicked | background.js:108-113 | a click on the reminder opens the popup and clears it (opening the popup always succeeds in the model); other clicks do nothing |

## Left out

- DOM work (rendering the list, counters' text, `alert`, clearing the input) is not modelled; only the classes the counters receive are.
- The host APIs are abstract state: `chrome.storage.local` is the `Store` class, the alarm table and notifications are fields of `Background`, and opening the popup is a ghost counter. The host firing alarms (and discarding a one-shot alarm after it fires) is not modelled.
- async/await ordering and the race between the popup and the background writing the same key are not modelled; each operation runs to completion on its own.
- Host calls (storage, alarms, notifications, `openPopup`) never fail, and nothing is retried. If `scheduleAlarm` rejected, `onInstalled` would stop before `initializeStorage`; the model always runs both.
- Background.Background.OnButtonClicked, Background.Background.OnClicked: opening the popup always succeeds here. In the code a rejected `openPopup` ends the listener before `notifications.clear`, so the reminder (which requires interaction) stays on screen; that path is not modelled.
- Time zones are a fixed offset: no daylight-saving changes. The two `new Date()` reads in `scheduleAlarm` are taken as the same instant.
- Popup.Popup.Initialize, Popup.Popup.LoadTodayEntries, Popup.Popup.Submit: each handler reads the clock once (`now`), while the code reads it again in `cleanupOldData`, `loadTodayEntries` and `updateStreak`. A handler that crosses 00:00 UTC between reads is not modelled: for instance a submit whose list is written under day D and whose streak update then reads D+1 and counts a day with no stored entries.
- Popup.SweepKeepsToday, Popup.StreakExtendsOnNextDay, Popup.StreakResetsAfterGap, Popup.StreakOfThreeConsecutiveDays: stated for days in years 0000-9999 only; beyond that range neighbouring days share one key (`KeysCollideBeyondRange`), so the streak does not advance from one to the next.
- JavaScript's lenient date parsing is replaced by a strict `YYYY-MM-DD` reader; looser forms that a browser would accept (such as `2024` or day overflow) are read as not a date.
- Stored values have the three shapes the extension writes; a value of another shape under a key is read as if the key were absent, except by `initializeStorage` (`WithDefaults`), which tests only whether the key is present and keeps any stored value.
- String lengths count Unicode scalar values; JavaScript counts UTF-16 code units, so a character outside the Basic Multilingual Plane counts once here and twice there.
- Numbers are unbounded integers: no floating point, and the Date range limit of ±8.64e15 ms is not enforced.
- Background.NextFire, Background.DailyTable: the bounds are stated only for hours 0-23, the only hours the settings are meant to hold; for other hours the same `setHours` arithmetic is modelled but nothing is proved about it.
- Dates.ParseDayKeyOfDayKey: the round trip is stated for years 0000-9999 only, because keys for other years are not in `YYYY-MM-DD` form.
- Dates.DayKeyInjective: stated for years 0000-9999 only; beyond that range the key `±YYYYYY-MM` drops the day, so all days of a month share one key (`KeysCollideBeyondRange`).
- generate_icons.js (icon image conversion) is not part of this model.
