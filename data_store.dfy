/** The shared store of data.js (`AppData`): the events, tasks and conflicts
    arrays and the helpers the pages call on them. Records are open
    JavaScript objects, written here as maps from field name to value, so a
    spread `{...a, ...b}` is the map union `a + b` (the right side wins).
    `saveData` only logs and alerts; it is a no-op here. Reading a date
    string as a day is the input `dayOf`, and "today" is an input day. */
module DataStore {
  import opened Common
  import Text
  import Sorting

  /** A field value, as far as the store looks at it. */
  datatype Value = Num(n: int) | Str(s: string) | Bool(b: bool)

  type Record = map<string, Value>

  /** `r.id === id`; a missing field is `undefined` and matches nothing. */
  predicate HasId(r: Record, id: int)
  {
    "id" in r && r["id"] == Num(id)
  }

  /** `r[field] === s` for a string `s`. */
  predicate FieldIs(r: Record, field: string, s: string)
  {
    field in r && r[field] == Str(s)
  }

  /** JavaScript truthiness of a field; a missing field is falsy. */
  predicate Truthy(r: Record, field: string)
  {
    field in r &&
    match r[field]
    case Num(n) => n != 0
    case Str(s) => s != ""
    case Bool(b) => b
  }

  // =====================================================================
  // Lookups (getEventById, getTaskById, getEventsByDate, getTasksByDate)
  // =====================================================================

  /** `findIndex(r => r.id === id)`: the first index holding the id. */
  function FirstWithId(rs: seq<Record>, id: int): (r: Option<nat>)
    ensures r.Some? ==> r.value < |rs| && HasId(rs[r.value], id)
    ensures r.Some? ==> forall j :: 0 <= j < r.value ==> !HasId(rs[j], id)
    ensures r.None? <==> forall j :: 0 <= j < |rs| ==> !HasId(rs[j], id)
  {
    FindIndex(rs, (x: Record) => HasId(x, id))
  }

  /** `find(r => r.id === id)`: the first record with the id. */
  function FindById(rs: seq<Record>, id: int): (r: Option<Record>)
    ensures r.None? <==> forall j :: 0 <= j < |rs| ==> !HasId(rs[j], id)
    ensures r.Some? ==> exists k :: 0 <= k < |rs| && rs[k] == r.value && HasId(rs[k], id)
                                    && forall j :: 0 <= j < k ==> !HasId(rs[j], id)
  {
    match FirstWithId(rs, id)
    case None => None
    case Some(k) => Some(rs[k])
  }

  /** `filter(r => r[field] === s)`. */
  function WithField(rs: seq<Record>, field: string, s: string): (r: seq<Record>)
    ensures forall i :: 0 <= i < |r| ==> r[i] in rs && FieldIs(r[i], field, s)
    ensures forall i :: 0 <= i < |rs| && FieldIs(rs[i], field, s) ==> rs[i] in r
  {
    Filter(rs, (x: Record) => FieldIs(x, field, s))
  }

  /** The lookup keeps store order: it works piece by piece. */
  lemma WithFieldConcat(a: seq<Record>, b: seq<Record>, field: string, s: string)
    ensures WithField(a + b, field, s) == WithField(a, field, s) + WithField(b, field, s)
  {
    FilterConcat(a, b, (x: Record) => FieldIs(x, field, s));
  }

  // =====================================================================
  // Building and merging records (addEvent, addTask, update*)
  // =====================================================================

  /** A spread keeps every field of both sides, and the right side wins. */
  lemma MergeFields(left: Record, right: Record)
    ensures (left + right).Keys == left.Keys + right.Keys
    ensures forall k :: k in right ==> (left + right)[k] == right[k]
    ensures forall k :: k in left && k !in right ==> (left + right)[k] == left[k]
  {
  }

  /** `{id: n, ...event}`: the new event has the id `n` unless the argument
      brings its own, and every field of the argument as given. */
  lemma NewEventFields(n: int, event: Record)
    ensures "id" !in event ==> HasId(map["id" := Num(n)] + event, n)
    ensures forall k :: k in event ==> (map["id" := Num(n)] + event)[k] == event[k]
    ensures (map["id" := Num(n)] + event).Keys == event.Keys + {"id"}
  {
    MergeFields(map["id" := Num(n)], event);
  }

  /** `{id: n, completed: false, ...task}`: as for events, and a new
      task is not completed unless the argument says so. */
  lemma NewTaskFields(n: int, task: Record)
    ensures "id" !in task ==> HasId(map["id" := Num(n), "completed" := Bool(false)] + task, n)
    ensures "completed" !in task ==>
              (map["id" := Num(n), "completed" := Bool(false)] + task)["completed"] == Bool(false)
    ensures forall k :: k in task ==> (map["id" := Num(n), "completed" := Bool(false)] + task)[k] == task[k]
  {
    MergeFields(map["id" := Num(n), "completed" := Bool(false)], task);
  }

  /** The merged record keeps the id it was found by unless the updates
      replace it. */
  lemma MergeKeepsId(r: Record, id: int, updates: Record)
    requires HasId(r, id) && "id" !in updates
    ensures HasId(r + updates, id)
  {
  }

  /** `splice(k, 1)`: one record fewer, the others in their order. */
  lemma SpliceShape(rs: seq<Record>, k: nat)
    requires k < |rs|
    ensures |rs[..k] + rs[k + 1..]| == |rs| - 1
    ensures forall j :: 0 <= j < k ==> (rs[..k] + rs[k + 1..])[j] == rs[j]
    ensures forall j :: k < j < |rs| ==> (rs[..k] + rs[k + 1..])[j - 1] == rs[j]
    ensures multiset(rs[..k] + rs[k + 1..]) + multiset{rs[k]} == multiset(rs)
  {
    assert rs == rs[..k] + [rs[k]] + rs[k + 1..];
  }

  /** Ids are not kept unique: when the records carry ids 1..n in order and
      one other than the last is deleted, the id `addEvent` hands out next
      (length + 1) is the id of the last record, which is still there. */
  lemma AddAfterDeleteRepeatsId(rs: seq<Record>, k: nat, event: Record)
    requires forall j :: 0 <= j < |rs| ==> HasId(rs[j], j + 1)
    requires k < |rs| - 1 && "id" !in event
    ensures var after := rs[..k] + rs[k + 1..];
            var added := map["id" := Num(|after| + 1)] + event;
            HasId(added, |rs|) && HasId(after[|after| - 1], |rs|)
  {
    var after := rs[..k] + rs[k + 1..];
    SpliceShape(rs, k);
    assert after[|after| - 1] == rs[|rs| - 1];
    NewEventFields(|after| + 1, event);
  }

  // =====================================================================
  // Upcoming tasks and events (getUpcomingTasks, getUpcomingEvents)
  // =====================================================================

  /** The day difference the page computes for a record's date field, when
      that field holds a date `dayOf` can read (otherwise the `Date` is
      invalid and every comparison with it is false). */
  function DaysUntil(r: Record, field: string, today: Day, dayOf: string -> Option<Day>): Option<int>
  {
    if field in r && r[field].Str? && dayOf(r[field].s).Some? then Some(dayOf(r[field].s).value - today)
    else None
  }

  /** Whether the loop keeps the record: not completed (for tasks) and
      between 0 and `days` days ahead. */
  predicate Picked(r: Record, field: string, skipCompleted: bool, today: Day, days: int,
                   dayOf: string -> Option<Day>)
  {
    (!skipCompleted || !Truthy(r, "completed"))
    && var d := DaysUntil(r, field, today, dayOf);
    d.Some? && 0 <= d.value <= days
  }

  /** `{...r, daysUntil: d}`. */
  function WithDaysUntil(r: Record, field: string, today: Day, dayOf: string -> Option<Day>): Record
    requires DaysUntil(r, field, today, dayOf).Some?
  {
    r["daysUntil" := Num(DaysUntil(r, field, today, dayOf).value)]
  }

  /** What the `forEach` loop pushes, in store order. */
  function Upcoming(rs: seq<Record>, field: string, skipCompleted: bool, today: Day, days: int,
                    dayOf: string -> Option<Day>): (r: seq<Record>)
    ensures |r| <= |rs|
  {
    if rs == [] then []
    else
      var last := rs[|rs| - 1];
      Upcoming(rs[..|rs| - 1], field, skipCompleted, today, days, dayOf)
      + (if Picked(last, field, skipCompleted, today, days, dayOf)
         then [WithDaysUntil(last, field, today, dayOf)] else [])
  }

  /** `x` is a picked record of `rs` with its `daysUntil` added. */
  predicate FromPicked(x: Record, rs: seq<Record>, field: string, skipCompleted: bool, today: Day,
                       days: int, dayOf: string -> Option<Day>)
  {
    exists j :: 0 <= j < |rs| && Picked(rs[j], field, skipCompleted, today, days, dayOf)
                && x == WithDaysUntil(rs[j], field, today, dayOf)
  }

  /** Every pushed record is a picked record of the store with its
      `daysUntil` added, so `daysUntil` lies in `[0, days]` and (for tasks)
      the record is not completed. */
  lemma {:induction false} UpcomingSound(rs: seq<Record>, field: string, skipCompleted: bool, today: Day,
                                         days: int, dayOf: string -> Option<Day>, i: nat)
    requires i < |Upcoming(rs, field, skipCompleted, today, days, dayOf)|
    ensures FromPicked(Upcoming(rs, field, skipCompleted, today, days, dayOf)[i], rs,
                       field, skipCompleted, today, days, dayOf)
  {
    var init := rs[..|rs| - 1];
    var last := rs[|rs| - 1];
    var u := Upcoming(init, field, skipCompleted, today, days, dayOf);
    var r := Upcoming(rs, field, skipCompleted, today, days, dayOf);
    if i < |u| {
      UpcomingSound(init, field, skipCompleted, today, days, dayOf, i);
      var j :| 0 <= j < |init| && Picked(init[j], field, skipCompleted, today, days, dayOf)
               && u[i] == WithDaysUntil(init[j], field, today, dayOf);
      assert init[j] == rs[j];
      assert r[i] == u[i];
    } else {
      assert Picked(last, field, skipCompleted, today, days, dayOf);
      assert r[i] == WithDaysUntil(rs[|rs| - 1], field, today, dayOf);
    }
  }

  /** Every picked record of the store is pushed, with its `daysUntil`. */
  lemma {:induction false} UpcomingComplete(rs: seq<Record>, field: string, skipCompleted: bool, today: Day,
                                            days: int, dayOf: string -> Option<Day>, j: nat)
    requires j < |rs| && Picked(rs[j], field, skipCompleted, today, days, dayOf)
    ensures WithDaysUntil(rs[j], field, today, dayOf) in Upcoming(rs, field, skipCompleted, today, days, dayOf)
  {
    var init := rs[..|rs| - 1];
    if j < |rs| - 1 {
      assert init[j] == rs[j];
      UpcomingComplete(init, field, skipCompleted, today, days, dayOf, j);
    }
  }

  /** The added field keeps what the loop tested: the window and, for tasks,
      the completion flag. */
  lemma PickedShows(r: Record, field: string, skipCompleted: bool, today: Day, days: int,
                    dayOf: string -> Option<Day>)
    requires Picked(r, field, skipCompleted, today, days, dayOf)
    ensures var w := WithDaysUntil(r, field, today, dayOf);
            && "daysUntil" in w && w["daysUntil"].Num? && 0 <= w["daysUntil"].n <= days
            && (skipCompleted ==> !Truthy(w, "completed"))
  {
  }

  /** The day a record's date field names, for sorting (`new Date(a.date) -
      new Date(b.date)`); every pushed record has one. */
  function DayKey(r: Record, field: string, dayOf: string -> Option<Day>): int
  {
    if field in r && r[field].Str? && dayOf(r[field].s).Some? then dayOf(r[field].s).value else 0
  }

  /** The comparator of the final `sort`, read as "comes no later than". */
  function ByDay(field: string, dayOf: string -> Option<Day>): (Record, Record) -> bool
  {
    (a: Record, b: Record) => DayKey(a, field, dayOf) <= DayKey(b, field, dayOf)
  }

  lemma ByDayIsPreorder(field: string, dayOf: string -> Option<Day>)
    ensures Sorting.Total(ByDay(field, dayOf)) && Sorting.Transitive(ByDay(field, dayOf))
  {
  }

  /** The result of `getUpcoming*`: the pushed records sorted by day. */
  function UpcomingSorted(rs: seq<Record>, field: string, skipCompleted: bool, today: Day, days: int,
                          dayOf: string -> Option<Day>): (r: seq<Record>)
    ensures multiset(r) == multiset(Upcoming(rs, field, skipCompleted, today, days, dayOf))
    ensures Sorting.Sorted(r, ByDay(field, dayOf))
  {
    ByDayIsPreorder(field, dayOf);
    Sorting.SortBy(Upcoming(rs, field, skipCompleted, today, days, dayOf), ByDay(field, dayOf))
  }

  // =====================================================================
  // isConflictDay and convertTo24Hour
  // =====================================================================

  /** The `YYYY-MM-DD` string `isConflictDay` builds: `String(year)`, then
      the month (0-based, hence plus one) and the day, each padded to two
      digits. */
  function DateString(year: int, month: int, day: int): string
  {
    Text.IntToString(year) + "-" + Text.PadStart(Text.IntToString(month + 1), 2, '0')
    + "-" + Text.PadStart(Text.IntToString(day), 2, '0')
  }

  /** For a calendar date the string is the year, a dash, two month digits,
      a dash and two day digits, and each part reads back as its number. */
  lemma DateStringParts(year: nat, month: nat, day: nat, s: string)
    requires month < 12 && 1 <= day <= 31 && s == DateString(year, month, day)
    ensures && |s| == |Text.NatToString(year)| + 6
            && s[..|s| - 6] == Text.NatToString(year)
            && s[|s| - 6] == '-' && s[|s| - 3] == '-'
            && Text.AllDigits(s[|s| - 5..|s| - 3]) && Text.DecimalValue(s[|s| - 5..|s| - 3]) == month + 1
            && Text.AllDigits(s[|s| - 2..]) && Text.DecimalValue(s[|s| - 2..]) == day
  {
    var y, mm, dd := Text.NatToString(year), Text.TwoDigits(month + 1), Text.TwoDigits(day);
    DateStringIs(year, month, day);
    Text.TwoDigitsValue(month + 1);
    Text.TwoDigitsValue(day);
    DashedParts(y, mm, dd, s);
  }

  /** For natural numbers `String` is the plain numeral, and the padded
      fields are two-digit numerals. */
  lemma DateStringIs(year: nat, month: nat, day: nat)
    ensures DateString(year, month, day)
         == Text.NatToString(year) + "-" + Text.TwoDigits(month + 1) + "-" + Text.TwoDigits(day)
  {
  }

  lemma DashedParts(y: string, mm: string, dd: string, s: string)
    requires |mm| == 2 && |dd| == 2 && s == y + "-" + mm + "-" + dd
    ensures && |s| == |y| + 6 && s[..|s| - 6] == y && s[|s| - 6] == '-' && s[|s| - 3] == '-'
            && s[|s| - 5..|s| - 3] == mm && s[|s| - 2..] == dd
  {
  }

  /** Different calendar dates give different strings. */
  lemma DateStringInjective(y1: nat, m1: nat, d1: nat, y2: nat, m2: nat, d2: nat)
    requires m1 < 12 && 1 <= d1 <= 31 && m2 < 12 && 1 <= d2 <= 31
    requires DateString(y1, m1, d1) == DateString(y2, m2, d2)
    ensures y1 == y2 && m1 == m2 && d1 == d2
  {
    var s := DateString(y1, m1, d1);
    DateStringParts(y1, m1, d1, s);
    DateStringParts(y2, m2, d2, s);
    Text.DecimalRoundTrip(y1);
    Text.DecimalRoundTrip(y2);
  }

  /** `conflicts.some(c => c.date === date)`. */
  function AnyOnDate(conflicts: seq<Record>, date: string): (r: bool)
    ensures r <==> exists i :: 0 <= i < |conflicts| && FieldIs(conflicts[i], "date", date)
  {
    if conflicts == [] then false
    else if FieldIs(conflicts[0], "date", date) then true
    else
      var rest := AnyOnDate(conflicts[1..], date);
      assert forall i :: 1 <= i < |conflicts| ==> conflicts[i] == conflicts[1..][i - 1];
      rest
  }

  /** The hour field `convertTo24Hour` prints, as written: hour '12'
      becomes '00', and after the modifier 'PM' the hour becomes
      `parseInt(hours, 10) + 12`, printed as `NaN` when it does not parse. */
  function HourField(hours: string, pm: bool): string
  {
    var h := if hours == "12" then "00" else hours;
    if !pm then h
    else match Text.ParseInt(h)
      case None => "NaN"
      case Some(v) => Text.IntToString(v + 12)
  }

  /** The hour and minute fields `convertTo24Hour` joins: the text before
      the first space is split at colons, and the text after it is the
      modifier. A missing minutes field prints as `undefined`. */
  function HoursAndMinutes(time12h: string): (string, string)
  {
    var parts := Text.Split(time12h, ' ');
    var hm := Text.Split(parts[0], ':');
    var pm := |parts| > 1 && parts[1] == "PM";
    (HourField(hm[0], pm), if |hm| > 1 then hm[1] else "undefined")
  }

  /** `convertTo24Hour(time12h)` as written. */
  function ConvertTo24Hour(time12h: string): string
  {
    var hm := HoursAndMinutes(time12h);
    hm.0 + ":" + hm.1
  }

  /** `convertTo24Hour` with the hour padded to two digits, so that the
      result has the `HH:MM` form of the clock it is compared with. */
  function ConvertTo24HourPadded(time12h: string): string
  {
    var hm := HoursAndMinutes(time12h);
    Text.PadStart(hm.0, 2, '0') + ":" + hm.1
  }

  /** A 12-hour time as the store writes it: `h:mm AM` or `h:mm PM`, the
      hour without a leading zero. */
  function Time12(h: nat, m: nat, pm: bool): string
  {
    Text.NatToString(h) + ":" + Text.TwoDigits(m) + " " + (if pm then "PM" else "AM")
  }

  /** The hour on the 24-hour clock: 12 AM is 0, 12 PM is 12, and the other
      PM hours move up by 12. */
  function Hour24(h: nat, pm: bool): nat
  {
    if h == 12 then (if pm then 12 else 0) else if pm then h + 12 else h
  }

  lemma NatToStringIsTwelve(h: nat)
    requires 1 <= h <= 12
    ensures (Text.NatToString(h) == "12") <==> h == 12
  {
    if h == 12 {
      assert Text.NatToString(1) == ['1'];
      assert Text.NatToString(12) == Text.NatToString(1) + [Text.DigitChar(2)];
    } else if h < 10 {
      assert Text.NatToString(h) == [Text.DigitChar(h)];
    } else {
      assert Text.NatToString(h)[1] == Text.DigitChar(h % 10) != '2';
    }
  }

  /** A well-formed time splits at the space into `h:mm` and the modifier,
      and `h:mm` splits at the colon into the hour and the minutes. */
  lemma Time12Split(h: nat, m: nat, pm: bool, t: string, hs: string, ms: string, mod: string)
    requires m < 60 && hs == Text.NatToString(h) && ms == Text.TwoDigits(m)
    requires mod == (if pm then "PM" else "AM") && t == Time12(h, m, pm)
    ensures Text.Split(t, ' ') == [hs + ":" + ms, mod]
    ensures Text.Split(hs + ":" + ms, ':') == [hs, ms]
  {
    var front := hs + ":" + ms;
    assert ' ' !in front && ':' !in hs && ':' !in ms && ' ' !in mod by {
      assert Text.AllDigits(hs) && Text.AllDigits(ms);
    }
    assert t == front + [' '] + mod;
    Text.SplitTwo(front, mod, ' ', t);
    Text.SplitTwo(hs, ms, ':', front);
  }

  /** The hour field of a well-formed hour. */
  lemma HourFieldOf(h: nat, pm: bool, hs: string)
    requires 1 <= h <= 12 && hs == Text.NatToString(h)
    ensures HourField(hs, pm) == if h == 12 && !pm then "00" else Text.NatToString(Hour24(h, pm))
  {
    NatToStringIsTwelve(h);
    if pm && h == 12 {
      NoonField(hs);
    } else if pm {
      AfternoonField(h, hs);
    }
  }

  /** `12 PM`: the hour becomes `00`, which parses as 0, and then 12. */
  lemma NoonField(hs: string)
    requires hs == "12"
    ensures HourField(hs, true) == Text.NatToString(12)
  {
    Text.ParseIntTwoZeros("00");
    Text.DivTen(12, 1, 2);
  }

  /** `1 PM` to `11 PM`: the hour parses back and moves up by 12. */
  lemma AfternoonField(h: nat, hs: string)
    requires 1 <= h < 12 && hs == Text.NatToString(h) && hs != "12"
    ensures HourField(hs, true) == Text.NatToString(h + 12)
  {
    Text.ParseIntDigits(hs);
    Text.DecimalRoundTrip(h);
  }

  /** The fields of a well-formed time: the hour text and the minutes. */
  lemma Time12Fields(h: nat, m: nat, pm: bool, t: string)
    requires 1 <= h <= 12 && m < 60 && t == Time12(h, m, pm)
    ensures HoursAndMinutes(t).0 == if h == 12 && !pm then "00" else Text.NatToString(Hour24(h, pm))
    ensures HoursAndMinutes(t).1 == Text.TwoDigits(m)
  {
    var hs, ms := Text.NatToString(h), Text.TwoDigits(m);
    var mod := if pm then "PM" else "AM";
    Time12Split(h, m, pm, t, hs, ms, mod);
    assert (mod == "PM") == pm;
    assert HoursAndMinutes(t) == (HourField(hs, pm), ms);
    HourFieldOf(h, pm, hs);
  }

  /** `convertTo24Hour` on a well-formed time: hour 12 becomes `00` before
      AM and 12 after PM, the other PM hours move up by 12, and the other
      AM hours are left as they are, without padding. */
  lemma ConvertTo24HourFields(h: nat, m: nat, pm: bool)
    requires 1 <= h <= 12 && m < 60
    ensures ConvertTo24Hour(Time12(h, m, pm))
         == (if h == 12 && !pm then "00" else Text.NatToString(Hour24(h, pm))) + ":" + Text.TwoDigits(m)
  {
    Time12Fields(h, m, pm, Time12(h, m, pm));
  }

  /** The padded conversion of a well-formed time is the clock reading of
      its 24-hour time. */
  lemma ConvertPaddedIsClock(h: nat, m: nat, pm: bool)
    requires 1 <= h <= 12 && m < 60
    ensures ConvertTo24HourPadded(Time12(h, m, pm)) == Text.Clock(Hour24(h, pm), m)
  {
    Time12Fields(h, m, pm, Time12(h, m, pm));
    if h == 12 && !pm {
      assert Text.PadStart("00", 2, '0') == "00";
      Text.TwoDigitsChars(0);
    }
  }

  /** Comparing clock readings as strings (`>=` and `<=` in the page)
      agrees with comparing the times. */
  lemma ClockOrder(h1: nat, m1: nat, h2: nat, m2: nat)
    requires h1 < 24 && m1 < 60 && h2 < 24 && m2 < 60
    ensures Text.LexLe(Text.Clock(h1, m1), Text.Clock(h2, m2)) <==> h1 * 60 + m1 <= h2 * 60 + m2
  {
    Text.ClockChars(h1, m1, Text.Clock(h1, m1));
    Text.ClockChars(h2, m2, Text.Clock(h2, m2));
    Text.LexLeDigits5(h1 / 10, h1 % 10, m1 / 10, m1 % 10, h2 / 10, h2 % 10, m2 / 10, m2 % 10);
  }

  /** As written, a morning hour before 10 is not padded, so at 10:00 the
      test `currentTime >= startTime` fails for an event from 9:30 AM. */
  lemma UnpaddedHourMisorders(h: nat, m: nat, nowH: nat, nowM: nat)
    requires h == 9 && m == 30 && nowH == 10 && nowM == 0
    ensures ConvertTo24Hour(Time12(h, m, false)) == "9:30"
    ensures Text.Clock(nowH, nowM) == "10:00"
    ensures !Text.LexLe(ConvertTo24Hour(Time12(h, m, false)), Text.Clock(nowH, nowM))
    ensures Hour24(h, false) * 60 + m <= nowH * 60 + nowM
  {
    var t := ConvertTo24Hour(Time12(h, m, false));
    var c := Text.Clock(nowH, nowM);
    NineThirty(h, m, t);
    TenOClock(nowH, nowM, c);
    Text.DigitCharOrder(9, 1);
    assert Text.DigitChar(0) == '0' && Text.DigitChar(1) == '1' && Text.DigitChar(3) == '3'
        && Text.DigitChar(9) == '9';
  }

  lemma NineThirty(h: nat, m: nat, t: string)
    requires h == 9 && m == 30 && t == ConvertTo24Hour(Time12(h, m, false))
    ensures t == [Text.DigitChar(9), ':', Text.DigitChar(3), Text.DigitChar(0)]
  {
    Time12Fields(h, m, false, Time12(h, m, false));
    assert Text.NatToString(h) == [Text.DigitChar(h)];
    Text.DivTen(m, 3, 0);
    Text.TwoDigitsChars(m);
  }

  lemma TenOClock(nowH: nat, nowM: nat, c: string)
    requires nowH == 10 && nowM == 0 && c == Text.Clock(nowH, nowM)
    ensures c == [Text.DigitChar(1), Text.DigitChar(0), ':', Text.DigitChar(0), Text.DigitChar(0)]
  {
    Text.DivTen(nowH, 1, 0);
    Text.DivTen(nowM, 0, 0);
    Text.ClockChars(nowH, nowM, c);
  }

  /** With the hour padded, string comparison of a converted time with the
      clock agrees with comparing the times. */
  lemma PaddedHourOrders(h: nat, m: nat, pm: bool, nowH: nat, nowM: nat)
    requires 1 <= h <= 12 && m < 60 && nowH < 24 && nowM < 60
    ensures Text.LexLe(ConvertTo24HourPadded(Time12(h, m, pm)), Text.Clock(nowH, nowM))
            <==> Hour24(h, pm) * 60 + m <= nowH * 60 + nowM
  {
    ConvertPaddedIsClock(h, m, pm);
    ClockOrder(Hour24(h, pm), m, nowH, nowM);
  }

  // =====================================================================
  // The store object
  // =====================================================================

  class AppData {
    var events: seq<Record>
    var tasks: seq<Record>
    var conflicts: seq<Record>

    constructor (events: seq<Record>, tasks: seq<Record>, conflicts: seq<Record>)
      ensures this.events == events && this.tasks == tasks && this.conflicts == conflicts
    {
      this.events, this.tasks, this.conflicts := events, tasks, conflicts;
    }

    function GetEventById(id: int): (r: Option<Record>)
      reads this
      ensures r.None? <==> forall j :: 0 <= j < |events| ==> !HasId(events[j], id)
      ensures r.Some? ==> r.value in events && HasId(r.value, id)
    {
      FindById(events, id)
    }

    function GetTaskById(id: int): (r: Option<Record>)
      reads this
      ensures r.None? <==> forall j :: 0 <= j < |tasks| ==> !HasId(tasks[j], id)
      ensures r.Some? ==> r.value in tasks && HasId(r.value, id)
    {
      FindById(tasks, id)
    }

    function GetEventsByDate(date: string): (r: seq<Record>)
      reads this
      ensures forall i :: 0 <= i < |r| ==> r[i] in events && FieldIs(r[i], "date", date)
      ensures forall i :: 0 <= i < |events| && FieldIs(events[i], "date", date) ==> events[i] in r
    {
      WithField(events, "date", date)
    }

    function GetTasksByDate(date: string): (r: seq<Record>)
      reads this
      ensures forall i :: 0 <= i < |r| ==> r[i] in tasks && FieldIs(r[i], "dueDate", date)
      ensures forall i :: 0 <= i < |tasks| && FieldIs(tasks[i], "dueDate", date) ==> tasks[i] in r
    {
      WithField(tasks, "dueDate", date)
    }

    function IsConflictDay(year: int, month: int, day: int): (r: bool)
      reads this
      ensures r <==> exists i :: 0 <= i < |conflicts| && FieldIs(conflicts[i], "date", DateString(year, month, day))
    {
      AnyOnDate(conflicts, DateString(year, month, day))
    }

    /** `addEvent(event)`: id = length + 1, then the argument's fields. */
    method AddEvent(event: Record) returns (newEvent: Record)
      modifies this
      ensures newEvent == map["id" := Num(|old(events)| + 1)] + event
      ensures events == old(events) + [newEvent]
      ensures tasks == old(tasks) && conflicts == old(conflicts)
    {
      newEvent := map["id" := Num(|events| + 1)] + event;
      events := events + [newEvent];
    }

    /** `addTask(task)`: id = length + 1, not completed, then the
        argument's fields. */
    method AddTask(task: Record) returns (newTask: Record)
      modifies this
      ensures newTask == map["id" := Num(|old(tasks)| + 1), "completed" := Bool(false)] + task
      ensures tasks == old(tasks) + [newTask]
      ensures events == old(events) && conflicts == old(conflicts)
    {
      newTask := map["id" := Num(|tasks| + 1), "completed" := Bool(false)] + task;
      tasks := tasks + [newTask];
    }

    /** `updateEvent(id, updates)`: merges the updates into the first event
        with the id and returns it; `null` (`None`) and no change when no
        event has the id. */
    method UpdateEvent(id: int, updates: Record) returns (r: Option<Record>)
      modifies this
      ensures match FirstWithId(old(events), id)
              case None => r.None? && events == old(events)
              case Some(k) => r == Some(old(events)[k] + updates)
                              && events == old(events)[k := old(events)[k] + updates]
      ensures tasks == old(tasks) && conflicts == old(conflicts)
    {
      var index := FirstWithId(events, id);
      if index.Some? {
        events := events[index.value := events[index.value] + updates];
        return Some(events[index.value]);
      }
      return None;
    }

    /** `updateTask(id, updates)`, the same on `tasks`. */
    method UpdateTask(id: int, updates: Record) returns (r: Option<Record>)
      modifies this
      ensures match FirstWithId(old(tasks), id)
              case None => r.None? && tasks == old(tasks)
              case Some(k) => r == Some(old(tasks)[k] + updates)
                              && tasks == old(tasks)[k := old(tasks)[k] + updates]
      ensures events == old(events) && conflicts == old(conflicts)
    {
      var index := FirstWithId(tasks, id);
      if index.Some? {
        tasks := tasks[index.value := tasks[index.value] + updates];
        return Some(tasks[index.value]);
      }
      return None;
    }

    /** `deleteEvent(id)`: splices out the first event with the id and
        answers whether there was one. */
    method DeleteEvent(id: int) returns (deleted: bool)
      modifies this
      ensures match FirstWithId(old(events), id)
              case None => !deleted && events == old(events)
              case Some(k) => deleted && events == old(events)[..k] + old(events)[k + 1..]
      ensures tasks == old(tasks) && conflicts == old(conflicts)
    {
      var index := FirstWithId(events, id);
      if index.Some? {
        events := events[..index.value] + events[index.value + 1..];
        return true;
      }
      return false;
    }

    /** `deleteTask(id)`, the same on `tasks`. */
    method DeleteTask(id: int) returns (deleted: bool)
      modifies this
      ensures match FirstWithId(old(tasks), id)
              case None => !deleted && tasks == old(tasks)
              case Some(k) => deleted && tasks == old(tasks)[..k] + old(tasks)[k + 1..]
      ensures events == old(events) && conflicts == old(conflicts)
    {
      var index := FirstWithId(tasks, id);
      if index.Some? {
        tasks := tasks[..index.value] + tasks[index.value + 1..];
        return true;
      }
      return false;
    }

    /** `getUpcomingTasks(days)`: open tasks and due within
        `days` days, with `daysUntil`, sorted by due date. */
    method GetUpcomingTasks(today: Day, days: int, dayOf: string -> Option<Day>) returns (r: seq<Record>)
      ensures r == UpcomingSorted(tasks, "dueDate", true, today, days, dayOf)
    {
      r := CollectUpcoming(tasks, "dueDate", true, today, days, dayOf);
    }

    /** `getUpcomingEvents(days)`: the events within `days` days, with
        `daysUntil`, sorted by date. */
    method GetUpcomingEvents(today: Day, days: int, dayOf: string -> Option<Day>) returns (r: seq<Record>)
      ensures r == UpcomingSorted(events, "date", false, today, days, dayOf)
    {
      r := CollectUpcoming(events, "date", false, today, days, dayOf);
    }
  }

  /** The body of `getUpcoming*`: the `forEach` loop, then the sort. */
  method CollectUpcoming(rs: seq<Record>, field: string, skipCompleted: bool, today: Day, days: int,
                         dayOf: string -> Option<Day>) returns (r: seq<Record>)
    ensures r == UpcomingSorted(rs, field, skipCompleted, today, days, dayOf)
  {
    var upcoming := PushUpcoming(rs, field, skipCompleted, today, days, dayOf);
    ByDayIsPreorder(field, dayOf);
    r := Sorting.SortBy(upcoming, ByDay(field, dayOf));
  }

  /** The `forEach` loop of `getUpcoming*`. */
  method PushUpcoming(rs: seq<Record>, field: string, skipCompleted: bool, today: Day, days: int,
                      dayOf: string -> Option<Day>) returns (upcoming: seq<Record>)
    ensures upcoming == Upcoming(rs, field, skipCompleted, today, days, dayOf)
  {
    upcoming := [];
    var i := 0;
    while i < |rs|
      invariant 0 <= i <= |rs|
      invariant upcoming == Upcoming(rs[..i], field, skipCompleted, today, days, dayOf)
    {
      var item := rs[i];
      if !skipCompleted || !Truthy(item, "completed") {
        var diff := DaysUntil(item, field, today, dayOf);
        if diff.Some? && 0 <= diff.value && diff.value <= days {
          upcoming := upcoming + [item["daysUntil" := Num(diff.value)]];
        }
      }
      UpcomingStep(rs, i, field, skipCompleted, today, days, dayOf);
      i := i + 1;
    }
    PrefixAll(rs);
  }

  /** One more record of the store: the loop pushes it exactly when it is
      picked. */
  lemma UpcomingStep(rs: seq<Record>, i: nat, field: string, skipCompleted: bool, today: Day, days: int,
                     dayOf: string -> Option<Day>)
    requires i < |rs|
    ensures Upcoming(rs[..i + 1], field, skipCompleted, today, days, dayOf)
         == Upcoming(rs[..i], field, skipCompleted, today, days, dayOf)
            + (if Picked(rs[i], field, skipCompleted, today, days, dayOf)
               then [WithDaysUntil(rs[i], field, today, dayOf)] else [])
  {
    assert rs[..i + 1][..i] == rs[..i] && rs[..i + 1][i] == rs[i];
  }

  lemma PrefixAll<T>(s: seq<T>)
    ensures s[..|s|] == s
  {
  }
}
