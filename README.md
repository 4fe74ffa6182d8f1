# PlanEase planner core in Dafny

PlanEase is a browser planner for students. This project models its core
logic and proves properties of the model:

- **`Home`** (home page script, `app.js:1-685`):
  - the alarm scheduler: the 10-second poll, fire-once-per-minute
    de-duplication through `lastTriggered`, the firing overlay, snooze
    timers and dismissal;
  - the alarm list: add, remove, toggle, edit;
  - the dashboard queries `getTodayEvents` and `getUpcomingTasks`;
  - `escapeHtml`.
- **`Planner`** (planner page script):
  - the in-memory item store: `nextId`, add, update, delete, toggle;
  - the form submit handler, including the A/B-week semester bulk
    expansion and its 500-item cap;
  - the list's filter and sort;
  - the date badge;
  - the CSV import parser.
- **`DataStore`** (`data.js`), the shared `AppData` store:
  - lookups by id and by date;
  - the upcoming-task and upcoming-event lists;
  - `isConflictDay`'s date string;
  - `convertTo24Hour`;
  - add, update and delete of events and tasks.
- **`Text`**, **`Sorting`** and **`Common`**: the pieces of JavaScript's
  string and array library the pages rely on:
  - `split`, `join`, `trim`, `padStart`, `parseInt`, global replace of one
    character, string comparison;
  - a sort by a comparator;
  - `filter` and `findIndex`.

State the source changes in place is modelled by classes:

- `Home.AlarmScheduler` holds the scheduler's variables.
- `Home.AlarmList` holds `AppData.alarms`.
- `Planner.PlannerStore` holds the planner's `events` array.
- `DataStore.AppData` holds the store's arrays.

Each method's postcondition gives its whole new state. It is stated in
terms of specification functions, and the lemmas beside them prove the
properties:

- each alarm fires at most once per minute and fires again in the next
  minute;
- ids stay unique;
- the semester expansion creates exactly one item per selected weekday,
  in date order, up to the cap;
- the filter names read as a status and a scope;
- the chain of replaces in `escapeHtml` escapes each character exactly
  once;
- `parseCSV` fills a missing cell with `""`.

The clock is an input. A poll tick receives the `HH:MM` string and the
minute key. The planner and data store receive "today" as a day number, and
the weekday or a date-string reader (`dayOf`) where the page asks `Date`.

## Model

| member | source | states |
|---|---|---|
| Common.Filter | app.js:1045-1068 | `filter` keeps exactly the elements that satisfy the predicate, and nothing else |
| Common.FilterConcat | app.js:1045-1068 | filtering distributes over concatenation, so the kept elements stay in their original order |
| Common.FilterPointwise | app.js:652-656 | filters that agree on every element give the same result |
| Common.FindIndex | app.js:1166-1168 | `findIndex` gives the first index that satisfies the predicate, and None exactly when no index does |
| Text.Split | app.js:1520 | `split` gives at least one field, and no field contains the separator |
| Text.JoinSplit | app.js:1520 | joining the fields of a split with the separator gives back the original string |
| Text.SplitJoin | app.js:1520 | splitting a join of separator-free fields gives back the fields |
| Text.SplitPrefix | data.js:118-119 | splitting a separator-free prefix followed by a rest glues the prefix onto the rest's first field |
| Text.SplitAt | data.js:118-119 | a string with one separator after a separator-free prefix splits into that prefix and the split of the rest |
| Text.SplitTwo | data.js:118-119 | two separator-free parts joined by the separator split back into exactly those two parts |
| Text.TrimStart | app.js:1309 | the result is a suffix of the input; only whitespace was removed, and it does not start with whitespace |
| Text.TrimEnd | app.js:1309 | the result is a prefix of the input; only whitespace was removed, and it does not end with whitespace |
| Text.Trim | app.js:1309-1310 | `trim` gives a string with no whitespace at either end, and it is empty exactly when the input is all whitespace (the "Title is required" test) |
| Text.TrimAll | app.js:1523 | `map(h => h.trim())` trims every field and keeps the count |
| Text.NatToString | data.js:161 | `String(n)` is non-empty, all digits, with no leading zero |
| Text.DecimalRoundTrip | data.js:161 | the digits of `String(n)` read back as `n` |
| Text.IntToString | data.js:161 | a negative number prints as a minus sign followed by its magnitude |
| Text.IntToStringRoundTrip | data.js:161 | `parseInt` of `String(i)` gives back `i`, for either sign |
| Text.ParseIntNegative | data.js:125 | `parseInt` of a minus sign and a numeral is the negated value of the numeral |
| Text.IntToStringShape | data.js:161 | `String(i)` starts with a minus sign exactly when `i` is negative, then digits without a leading zero that denote the magnitude |
| Text.PadStart | data.js:161 | `padStart` gives the target width, or the input's length when that is already wider |
| Text.PadStartShape | data.js:161 | the padded string ends with the input, and everything before it is the fill character |
| Text.PadDecimal | app.js:196 | zero-padding a number's digits keeps them all digits, with the same value |
| Text.TwoDigitsValue | app.js:196 | a number below 100 padded to two digits is two digits that read back as that number |
| Text.TwoDigitsChars | app.js:196 | two-digit padding of a number below 100 is its tens digit followed by its units digit |
| Text.ClockFields | app.js:196 | the `HH:MM` clock string has five characters and a colon at index 2, and its two fields read back as the hours and the minutes |
| Text.ClockChars | app.js:196 | the `HH:MM` clock string, character by character |
| Text.DigitPrefix | data.js:125 | the longest run of leading digits, which `parseInt` reads |
| Text.ParseIntDigits | data.js:125 | `parseInt` of a string of digits is its decimal value |
| Text.ParseIntZeros | data.js:121-126 | `parseInt` of a run of zeros (such as '00') is 0 |
| Text.DigitPrefixAll | data.js:125 | a string of digits is its own digit prefix |
| Text.ReplaceChar | app.js:616 | a global replace of a character that does not occur changes nothing |
| Text.ReplaceCharConcat | app.js:616 | a global replace of one character distributes over concatenation |
| Text.ReplaceCharSingle | app.js:616 | a global replace on one character gives the replacement or that character unchanged |
| Text.LexLeCons | data.js:110-113 | string `<=` compares the first characters and, when they are equal, the rest |
| Text.DigitCharOrder | data.js:110-113 | digit characters compare the way their values do |
| Text.LexLeDigits5 | data.js:110-113 | two `HH:MM` strings compare the way their minutes after midnight do |
| Sorting.Insert | app.js:1070-1075 | inserting adds exactly one element |
| Sorting.InsertPermutes | app.js:1070-1075 | inserting adds exactly the new element to the multiset |
| Sorting.InsertSorted | app.js:1070-1075 | inserting into a sorted list keeps it sorted when the order is total and transitive |
| Sorting.SortBy | app.js:1070-1075 | `sort` returns a sorted permutation of its input |
| Home.Tick | app.js:194-212 | a poll fires at most one alarm per alarm in the list |
| Home.TickFiresOnlyDue | app.js:194-212 | a poll fires only alarms of the list that are enabled, set to the current `HH:MM` and not yet fired in the current minute |
| Home.TickCons | app.js:199-207 | the poll decides the alarms in list order, the first one first |
| Home.TickSuffixStep | app.js:199-207 | one step of the poll loop: what has fired so far, then the current alarm's fire, then the rest of the list |
| Home.PollStep | app.js:214-249 | after a step, the overlay shows the last alarm fired, and it is active exactly when something fired |
| Home.DueIdsCons | app.js:200-201 | the ids due at `HH:MM` are those of the head of the list, plus those of the rest |
| Home.MarkOneMore | app.js:204 | marking one more id with the minute key, or one that already holds it, gives the same map |
| Home.TickMarks | app.js:199-207 | after a poll, `lastTriggered` holds the minute key for every due id and is unchanged elsewhere |
| Home.TickDistinct | app.js:199-207 | a poll never fires two alarms with the same id |
| Home.TickComplete | app.js:199-207 | every alarm that should fire has its id among the fired ones |
| Home.TickFiresExactly | app.js:199-207 | with distinct ids, a poll fires exactly the alarms that should fire, in list order |
| Home.TickSameMinuteAgain | app.js:203 | a second poll in the same minute fires nothing and changes nothing |
| Home.TickNewMinute | app.js:203-205 | a poll in a new minute fires every due alarm again |
| Home.FireOncePerMinute | app.js:194-207 | three polls during 08:00 fire the 08:00 alarm once, and the next day's 08:00 poll fires it again |
| Home.TickLeavesOthers | app.js:199-207 | a poll leaves the `lastTriggered` entries of ids that are not due untouched |
| Home.OnePendingPerId | app.js:269-274 | at most one snooze timer is pending per alarm id |
| Home.AlarmScheduler.constructor | app.js:79-81 | the scheduler starts with empty maps, no interval and no overlay |
| Home.AlarmScheduler.FireAlarm | app.js:214-249 | `fireAlarm` shows the overlay for the alarm, makes it active and logs the fire, changing nothing else |
| Home.AlarmScheduler.CheckAlarm | app.js:199-207 | one alarm of the poll fires exactly when it should, and `lastTriggered` takes its mark exactly then |
| Home.AlarmScheduler.CheckAlarmsToFire | app.js:194-212 | the loop's new `lastTriggered`, fired log and overlay are those of the `Tick` specification |
| Home.AlarmScheduler.StartAlarmScheduler | app.js:182-187 | starting is a no-op when the interval is already installed; otherwise it installs it and polls once at once, with `lastTriggered`, the fired log and the overlay those of the `Tick` specification |
| Home.AlarmScheduler.StopAlarmScheduler | app.js:189-192 | stopping removes the interval and changes nothing else |
| Home.AlarmScheduler.IntervalElapsed | app.js:184 | the interval polls while it is installed, updating `lastTriggered`, the fired log and the overlay as the `Tick` specification says, and changes nothing after it is stopped |
| Home.AlarmScheduler.DismissFiringAlarm | app.js:251-258 | dismissing hides an existing overlay, keeps the alarm's reference and does nothing without one |
| Home.AlarmScheduler.SnoozeFiringAlarm | app.js:260-274 | snoozing hides the overlay and replaces any pending timer of the alarm with a new one; without an overlay it does nothing |
| Home.AlarmScheduler.SnoozeElapsed | app.js:270-273 | a pending snooze timer re-fires its alarm, showing it in the overlay, and removes its own registration; a cleared timer changes nothing, overlay included |
| Home.WithoutAlarm | app.js:652-656 | `removeAlarm` drops exactly the alarms with the id, and an absent id changes nothing |
| Home.Toggled | app.js:658-664 | `toggleAlarm` flips the `enabled` flag of the first alarm with the id, and only that alarm |
| Home.ToggleTwice | app.js:658-664 | toggling twice restores the list |
| Home.FindIndexSameIds | app.js:660 | lists with the same ids give the same `find` position |
| Home.Edited | app.js:624-635 | `saveEditAlarm` sets the time and label of the first alarm with the id, and changes no id, no flag and no other alarm |
| Home.AddThenRemove | app.js:642-656 | removing a freshly added alarm restores the list |
| Home.AlarmList.constructor | app.js:13-16 | the list starts as the given alarms |
| Home.AlarmList.AddAlarm | app.js:642-650 | a cancelled or empty time adds nothing; otherwise one enabled alarm is appended, with the label defaulting to 'Alarm' |
| Home.AlarmList.RemoveAlarm | app.js:652-656 | the list becomes `WithoutAlarm` of the old list |
| Home.AlarmList.ToggleAlarm | app.js:658-664 | the list becomes `Toggled` of the old list |
| Home.AlarmList.SaveEditAlarm | app.js:624-635 | a missing input changes nothing; otherwise the list becomes `Edited` of the old list |
| Home.UpcomingTasks | app.js:36-45 | exactly the open tasks whose due date (or else start date) lies 0 to `days` days ahead |
| Home.UpcomingWindowEdges | app.js:43 | a task due in exactly `days` days is listed, and one due a day later is not |
| Home.TodayEvents | app.js:31-34 | exactly the events that start today |
| Home.EscapeEach | app.js:614-617 | escaping each character never shortens the string |
| Home.EscapeCharSafe | app.js:616 | an escaped character contains none of `<`, `>`, `"` and `'` |
| Home.EscapeEachSafe | app.js:616 | an escaped string contains none of `<`, `>`, `"` and `'` |
| Home.UnescapeStep | app.js:616 | decoding the five entities reads back the escape of one character |
| Home.UnescapeEscapeEach | app.js:616 | escaping is lossless: every `&` it writes begins one of the five entities, and decoding gives back the input |
| Home.EscapeHtmlRoundTrip | app.js:614-617 | the text `escapeHtml` writes into the page decodes to the original string |
| Home.EscapeEachPlain | app.js:616 | a string without special characters is unchanged |
| Home.EscapeHtmlIsCharwise | app.js:614-617 | the chain of five replaces equals escaping each character once, so no entity is escaped twice |
| Home.EscapeChainConcat | app.js:616 | the chain of replaces distributes over concatenation |
| Home.EscapeChainChar | app.js:616 | the chain of replaces on one character is that character's escape |
| Planner.MaxId | app.js:1155-1157 | `Math.max(0, ...ids)` is never negative |
| Planner.NextId | app.js:1155-1157 | the next id is at least 1 |
| Planner.MaxIdIsMax | app.js:1156 | the maximum bounds every id and is 0 or one of the ids |
| Planner.NextIdIsFresh | app.js:1155-1157 | the next id exceeds every id in the store |
| Planner.AppendNextKeepsUnique | app.js:1159-1164 | appending an item with the next id keeps ids unique |
| Planner.NextIdAfterAppend | app.js:1155-1164 | after appending an item with the next id, the next id moves up by one |
| Planner.Updated | app.js:1166-1173 | `updateItem` replaces the first item with the id by the payload, keeping the id; a missing id changes nothing |
| Planner.WithoutItem | app.js:1175-1180 | `deleteItem` drops exactly the items with the id |
| Planner.WithoutItemKeepsUnique | app.js:1175-1180 | deleting keeps ids unique |
| Planner.WithoutItemCons | app.js:1176 | deletion decides the head of the list, then the rest |
| Planner.UniqueTail | app.js:1176 | the rest of a list with unique ids has unique ids |
| Planner.ConsUnique | app.js:1176 | an item whose id is not in a unique list extends it uniquely |
| Planner.ToggledItem | app.js:1182-1189 | `toggleComplete` flips `completed` on the first item with the id, and only that item |
| Planner.SameIdsKeepUnique | app.js:1166-1189 | an edit that keeps every id keeps ids unique |
| Planner.WeekdayAtIsMod | app.js:1377 | the weekday, stepped a day at a time, is `(start + k) % 7` |
| Planner.NextWeekday | app.js:1377 | the weekday after Saturday is Sunday; otherwise it moves up by one |
| Planner.EvenWeekIsParity | app.js:1379-1380 | the week-A test is the parity of `floor(k / 7)` |
| Planner.PlanGood | app.js:1376-1399 | every planned slot is a weekday inside the range whose template mode is not 'none', and there are no more slots than days |
| Planner.PlanOrdered | app.js:1376-1399 | the planned slots are in strictly increasing date order |
| Planner.PlanComplete | app.js:1376-1399 | every weekday of the range whose template mode is not 'none' is planned |
| Planner.PlanPrefix | app.js:1376-1399 | a shorter range plans a prefix of a longer one |
| Planner.PlanNext | app.js:1376-1399 | one more day adds at most that day's slot |
| Planner.SlotItems | app.js:1384-1392 | one item per slot |
| Planner.SlotItemsConcat | app.js:1392 | items for two runs of slots are those of the first run, then those of the second with ids continuing |
| Planner.NextIdAfterSlots | app.js:1155-1164 | after adding the expansion's items, the next id has moved up by their number |
| Planner.Kept | app.js:1371-1398 | the cap keeps at most 500 slots |
| Planner.ExpansionClose | app.js:1376-1401 | when the loop ends, the store and the outcome are those of the expansion specification |
| Planner.CappedPlan | app.js:1394-1397 | once 500 items exist the loop stops, and the kept slots are the first 500 |
| Planner.FilterNameParts | app.js:1045-1068 | each of the twelve filter names is a status name followed by an optional '-tasks' or '-events' |
| Planner.KeepsIsStatusAndScope | app.js:1045-1068 | a known filter keeps an item exactly when its status test and its kind test both hold |
| Planner.KeepsUnknown | app.js:1045-1068 | an unknown filter name keeps every item |
| Planner.FilterItems | app.js:1045-1068 | the filtered list holds exactly the items the filter keeps |
| Planner.ComesFirstIsPreorder | app.js:1070-1075 | the list comparator is total and transitive |
| Planner.SortItems | app.js:1070-1075 | the sort is a permutation, with open items before completed ones and each group by start date and time |
| Planner.PlannerView | app.js:1039-1075 | the filtered, sorted list that `renderPlanner` then groups by month: a permutation of the filtered items, open items before completed ones and each group in start date and time order |
| Planner.BadgeFor | app.js:896-911 | 'Ends soon' for events from yesterday through today; 'Today' for tasks today; 'Tomorrow'; a weekday name for 2 to 7 days ahead; otherwise the date |
| Planner.RecordOfKeys | app.js:1527-1531 | a parsed record has exactly the headers as keys |
| Planner.RecordOfAt | app.js:1527-1531 | the last column carrying a header gives that header's value |
| Planner.RecordOfShape | app.js:1527-1531 | a record's keys are the headers, and each header holds the cell of its last column |
| Planner.CsvMissingCells | app.js:1529 | a missing cell becomes `''` |
| Planner.Records | app.js:1526-1532 | one record per data line |
| Planner.RecordsSnoc | app.js:1526-1532 | the loop appends one record per line |
| Planner.RecordsAt | app.js:1526-1532 | record `i` comes from data line `i` |
| Planner.CsvRecordsShape | app.js:1519-1536 | fewer than two lines give no records; otherwise there is one record per data line, keyed by the header line |
| Planner.ParseCSV | app.js:1519-1536 | the loop returns the records of the `CsvRecords` specification |
| Planner.BuildRecord | app.js:1528-1530 | the `forEach` over the headers builds the record of `RecordOf` |
| Planner.PlannerStore.constructor | app.js:1155 | the store starts with the given items |
| Planner.PlannerStore.AddItem | app.js:1159-1164 | the payload is appended with the next id, and unique ids stay unique |
| Planner.PlannerStore.UpdateItem | app.js:1166-1173 | the store becomes `Updated`, and unique ids stay unique |
| Planner.PlannerStore.DeleteItem | app.js:1175-1180 | the store becomes `WithoutItem`, and unique ids stay unique |
| Planner.PlannerStore.ToggleComplete | app.js:1182-1189 | the store becomes `ToggledItem`, and unique ids stay unique |
| Planner.PlannerStore.Submit | app.js:1306-1403 | an empty trimmed title changes nothing; a single save updates when editing and adds otherwise; a bulk save is the semester expansion |
| Planner.PlannerStore.ExpandSemester | app.js:1342-1403 | missing dates and an end before the start are rejected; otherwise the range is expanded as `Expansion` specifies |
| Planner.PlannerStore.ExpandDays | app.js:1376-1399 | the day loop adds the items of the plan so far, and stops at the range end or at 500 items |
| Planner.PlannerStore.AddDay | app.js:1377-1398 | one day of the loop adds that day's slot item when its mode is not 'none' |
| Planner.DayAdded | app.js:1383-1393 | adding a day's item extends the plan and the store by that slot |
| Planner.DaySkipped | app.js:1377-1383 | a weekend day or a 'none' day adds nothing to the plan |
| Planner.SlotAtDay | app.js:1377-1383 | a day contributes a slot exactly when its mode is not 'none' |
| Planner.SlotItemsSingle | app.js:1384-1392 | the items of one slot are that slot's item |
| Planner.SlotItemWithId | app.js:1159-1160 | setting the id of a slot item gives the slot item with that id |
| Planner.Advance | app.js:1392 | adding the items of further slots extends the plan's items |
| DataStore.FirstWithId | data.js:189-190 | the first index holding the id, and None exactly when no record has it |
| DataStore.AppData.GetEventById | data.js:45-47 | `getEventById` is undefined exactly when no event has the id, and otherwise an event with the id |
| DataStore.AppData.GetTaskById | data.js:49-51 | `getTaskById` is undefined exactly when no task has the id, and otherwise a task with the id |
| DataStore.AppData.GetEventsByDate | data.js:53-55 | `getEventsByDate` lists events only, each with that `date`, and every event with that `date` |
| DataStore.AppData.GetTasksByDate | data.js:57-59 | `getTasksByDate` lists tasks only, each with that `dueDate`, and every task with that `dueDate` |
| DataStore.AppData.IsConflictDay | data.js:160-163 | the day is a conflict day exactly when some conflict's `date` is the day's `YYYY-MM-DD` string |
| DataStore.FindById | data.js:45-51 | `getEventById`/`getTaskById` give the first record with the id, and None (`undefined`) exactly when there is none |
| DataStore.WithField | data.js:53-59 | `getEventsByDate`/`getTasksByDate` give exactly the records whose date field is the string |
| DataStore.WithFieldConcat | data.js:53-59 | the by-date lists keep the store order |
| DataStore.MergeFields | data.js:192 | `{...a, ...b}` holds the keys of both, and `b`'s values win |
| DataStore.NewEventFields | data.js:166-174 | a new event carries the argument's fields, and the generated id when the argument has none |
| DataStore.NewTaskFields | data.js:177-186 | a new task carries the argument's fields, the generated id, and `completed: false` unless the argument overrides them |
| DataStore.MergeKeepsId | data.js:189-197 | an update without an `id` field keeps the record's id |
| DataStore.SpliceShape | data.js:211-219 | `splice(index, 1)` removes exactly that record and shifts the rest down |
| DataStore.AddAfterDeleteRepeatsId | data.js:166-174 | with ids 1..n, deleting a record other than the last and then adding gives the new event the id of the last record |
| DataStore.Upcoming | data.js:83-100 | the loop pushes at most one record per stored record |
| DataStore.UpcomingSound | data.js:66-100 | every listed record is a picked store record with `daysUntil` added |
| DataStore.UpcomingComplete | data.js:66-100 | every picked store record is listed, with `daysUntil` added |
| DataStore.PickedShows | data.js:66-100 | a listed record has `daysUntil` between 0 and `days`, and a listed task is not completed |
| DataStore.ByDayIsPreorder | data.js:81 | the by-date comparator is total and transitive |
| DataStore.UpcomingSorted | data.js:66-100 | the upcoming list is the pushed records, sorted by date |
| DataStore.UpcomingStep | data.js:87-97 | each loop step appends that record's entry when it is picked |
| DataStore.PushUpcoming | data.js:87-97 | the `forEach` loop pushes exactly the records of `Upcoming` |
| DataStore.CollectUpcoming | data.js:66-100 | the loop and sort return `UpcomingSorted` |
| DataStore.DateStringParts | data.js:160-163 | `isConflictDay`'s date string is the year, a dash, two month digits (the 0-based month plus one), a dash and two day digits |
| DataStore.DateStringIs | data.js:161 | the date string in terms of two-digit padding |
| DataStore.DashedParts | data.js:161 | the parts of a `y-mm-dd` string sit at fixed places from its end |
| DataStore.DateStringInjective | data.js:160-163 | different calendar dates give different date strings, so a conflict matches one date only |
| DataStore.AnyOnDate | data.js:162 | `some(c => c.date === date)` holds exactly when some conflict has that date |
| DataStore.NatToStringIsTwelve | data.js:121 | among the hours 1 to 12, only 12 prints as '12' |
| DataStore.Time12Split | data.js:118-119 | a stored `h:mm AM` time splits into its hour, its minutes and its modifier |
| DataStore.HourFieldOf | data.js:121-127 | the hour field: 12 AM becomes '00', 12 PM '12', other PM hours move up by 12, and AM hours stay as written |
| DataStore.NoonField | data.js:121-127 | '12' with 'PM' becomes '00' and then 12 |
| DataStore.AfternoonField | data.js:125-127 | a PM hour other than 12 becomes the hour plus 12 |
| DataStore.Time12Fields | data.js:117-130 | the converted hour and minute fields of a stored 12-hour time |
| DataStore.ConvertTo24HourFields | data.js:117-130 | `convertTo24Hour` as written: the 24-hour hour without padding, then the minutes |
| DataStore.ConvertPaddedIsClock | data.js:117-130 | the padded conversion equals the `HH:MM` clock string of the same time |
| DataStore.ClockOrder | data.js:104-113 | comparing `HH:MM` strings orders times correctly |
| DataStore.UnpaddedHourMisorders | data.js:104-130 | as written, '9:30 AM' becomes '9:30', which compares after '10:00' though it is earlier |
| DataStore.NineThirty | data.js:117-130 | '9:30 AM' converts to '9:30' |
| DataStore.TenOClock | data.js:104 | 10:00 is the clock string '10:00' |
| DataStore.PaddedHourOrders | data.js:104-130 | with the hour padded, comparing the converted time with the clock string orders times correctly |
| DataStore.AppData.constructor | data.js:12-15 | the store holds the given arrays |
| DataStore.AppData.AddEvent | data.js:166-174 | the new event (id = length + 1, then the argument's fields) is appended and returned; nothing else changes |
| DataStore.AppData.AddTask | data.js:177-186 | the new task (id = length + 1, `completed: false`, then the argument's fields) is appended and returned |
| DataStore.AppData.UpdateEvent | data.js:189-197 | the first event with the id is merged with the updates and returned; a missing id gives `null` and changes nothing |
| DataStore.AppData.UpdateTask | data.js:200-208 | the same, for tasks |
| DataStore.AppData.DeleteEvent | data.js:211-219 | the first event with the id is removed, giving true; a missing id gives false and changes nothing |
| DataStore.AppData.DeleteTask | data.js:222-230 | the same, for tasks |
| DataStore.AppData.GetUpcomingTasks | data.js:83-100 | the open tasks due 0 to `days` days ahead, with `daysUntil`, sorted by due date |
| DataStore.AppData.GetUpcomingEvents | data.js:66-81 | the events 0 to `days` days ahead, with `daysUntil`, sorted by date |

## Left out

- The DOM, rendering and `innerHTML` templates are not modelled. Neither
  are audio, vibration, focus, `alert` and `prompt`. A prompt's answer is
  an `Option` input of `AddAlarm`.
- Persistence is not modelled: `saveAppDataToStorage`,
  `loadAppDataFromStorage`, `saveData` and `loadData`, whose `fetch` reads
  `database.json`. Saving is a no-op here.
- `setInterval` and `setTimeout` are not real timers. The interval and
  each pending timer are state, and their firing is a method
  (`IntervalElapsed`, `SnoozeElapsed`) a caller invokes. The delay of a
  snooze is recorded but is not timed.
- `Date` is an input. A tick receives `HH:MM` and the minute key; the other
  pages receive "today" as a day number, a weekday, and `dayOf` to read a
  date string.
  - `Math.ceil` over the millisecond difference and time zones are not
    modelled; the difference is taken in whole days.
  - In `data.js`, `today` keeps its time of day; that shift is part of the
    abstracted difference.
- `Planner.SlotItem`: the bulk loop's dates are local day numbers, and the
  item is stored under the day that was tested. The page does otherwise.
  It stores `cur.toISOString().slice(0,10)` (`app.js:1385`), the UTC date
  of local midnight, and steps by 24 hours of milliseconds (`app.js:1398`).
  East of UTC, local midnight falls on the previous UTC date, so the
  stored date is the day before the weekday that was tested. After a
  daylight-saving fall-back, `cur` sits at 23:00 of the previous local
  day. West of UTC, that instant is already the next UTC date, so the
  stored date is the day after. The model captures neither shift.
- `Home.AlarmList.AddAlarm`: `Date.now()` as the id is the input `now`.
- `getCurrentEvent` is not modelled (`data.js:102-115` and
  `app.js:47-58`). It reads the wall clock. Its comparison of the
  converted times with the `HH:MM` clock string is what
  `UnpaddedHourMisorders` and `PaddedHourOrders` state.
- `getGreeting` and `formatDate` are not modelled: locale formatting with
  no logic to prove. `getDaysInMonth`, `getFirstDayOfMonth` and
  `hasEventsOnDay` are not modelled either: calendar arithmetic done by
  `Date`.
- `Planner.BadgeFor`: the weekday and the date label come from `Date` and
  `toLocaleDateString`. The weekday is an input, and the date label is a
  constructor without the text.
- `Planner.PlannerView`: the month grouping of `renderPlanner`
  (`app.js:1077-1091`) is not modelled. The page groups the sorted list
  by month, in the order each month first appears, and renders group by
  group. That breaks open-before-completed across months: the sorted list
  [open 1 Dec, open 5 Jan, completed 10 Dec] is shown as 1 Dec, 10 Dec,
  5 Jan.
- `Planner.SortItems`: stability of the sort is not stated. Items without
  a start date or start time sort as `1970-01-01` and `00:00`, as the
  source does.
- `Planner.PlannerStore.Submit`: `startDate`, `endDate` and
  `startTime`/`endTime` are already day numbers and minutes, not strings.
  Reading the `<input>` values and `closeOverlay` are not modelled.
- The CSV file upload (`FileReader`, `app.js:1464-1517`) is not modelled.
  Only `parseCSV` is.
- The account page script (`app.js:1541-1912`) and the Escape-key
  listener are not modelled: settings toggles and modals with no logic
  beyond the DOM.
- `DataStore.AppData.IsConflictDay` is modelled for any integer year, but
  its lemmas are stated for years that are natural numbers.
- The `type` field of items (a copy of `category`) is not modelled. Nor is
  the record-to-record aliasing of `find`, which returns a reference the
  caller could mutate.
- `Home.AlarmScheduler.SnoozeFiringAlarm`: the overlay keeps a copy of the
  alarm, where the page keeps a reference (`panel._alarmRef`,
  `app.js:263` and `app.js:270-271`). A snoozed alarm that is edited or
  deleted before its timer elapses re-fires as it was when snoozed.
- The default `days = 7` of `getUpcomingTasks` (`app.js:36`),
  `getUpcomingEvents` (`data.js:66`) and `getUpcomingTasks` (`data.js:83`)
  is not modelled: `days` is always an explicit argument of
  `Home.UpcomingTasks` and `DataStore.Upcoming`.
- `Text.Trim`: whitespace is the space, tab, line feed, carriage return,
  vertical tab, form feed, no-break space and byte-order mark. The other
  Unicode space and line-terminator characters that JavaScript also trims
  are not included.

## Findings

| source | as written | input that shows it | evidently intended | confidence | as-written member | corrected member |
|---|---|---|---|---|---|---|
| data.js:117-130 | `convertTo24Hour` leaves the hours 1 to 9 unpadded, so `getCurrentEvent` compares '9:30' with the clock string '10:00' by string order | start time '9:30 AM' with the clock at '10:00': '10:00' >= '9:30' is false as strings, so an event running from 9:30 is not current at 10:00 | the hour padded to two digits ('09:30'), so that string order is time order | not executed | DataStore.UnpaddedHourMisorders | DataStore.PaddedHourOrders |
