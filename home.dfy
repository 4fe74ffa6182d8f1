/** The home page (the first of the three page scripts in app.js): the
    alarm list kept in `AppData.alarms`, the alarm scheduler with its
    once-per-minute de-duplication and its snooze timers, and the dashboard
    queries. The clock is an input: a tick is given the current `HH:MM`
    string and the minute key (`YYYY-MM-DDTHH:MM`) that the page would have
    read from `new Date()`. */
module Home {
  import opened Common
  import Text

  /** An alarm record; `name` is the record's `label` field. */
  datatype Alarm = Alarm(id: int, time: string, name: string, enabled: bool)

  // =====================================================================
  // One poll tick (checkAlarmsToFire)
  // =====================================================================

  /** An alarm that is switched on and set to the current minute of the day. */
  predicate Due(a: Alarm, hhmm: string)
  {
    a.enabled && a.time == hhmm
  }

  /** A due alarm fires unless its last-fired minute is the current one. */
  predicate ShouldFire(a: Alarm, hhmm: string, minuteKey: string, last: map<int, string>)
  {
    Due(a, hhmm) && !(a.id in last && last[a.id] == minuteKey)
  }

  /** The ids of the alarms of the list that are due at `hhmm`. */
  function DueIds(alarms: seq<Alarm>, hhmm: string): set<int>
  {
    set a | a in alarms && Due(a, hhmm) :: a.id
  }

  /** The ids of a sequence of alarms. */
  function IdsOf(alarms: seq<Alarm>): set<int>
  {
    set a | a in alarms :: a.id
  }

  /** The alarms fired by one tick, in order, and the new last-fired map. */
  datatype TickResult = TickResult(fired: seq<Alarm>, last: map<int, string>)

  /** One evaluation of the alarm list against the clock, alarm by alarm in
      list order. `TickFiresOnlyDue`, `TickMarks`, `TickDistinct` and
      `TickComplete` state what a tick does. */
  function Tick(alarms: seq<Alarm>, hhmm: string, minuteKey: string, last: map<int, string>): (r: TickResult)
    ensures |r.fired| <= |alarms|
    decreases |alarms|
  {
    if alarms == [] then TickResult([], last)
    else
      var a := alarms[0];
      if ShouldFire(a, hhmm, minuteKey, last) then
        var rest := Tick(alarms[1..], hhmm, minuteKey, last[a.id := minuteKey]);
        var r := TickResult([a] + rest.fired, rest.last);
        assert forall i :: 1 <= i < |r.fired| ==> r.fired[i] == rest.fired[i - 1];
        r
      else
        Tick(alarms[1..], hhmm, minuteKey, last)
  }

  /** Every alarm of `fired` belongs to `alarms` and should fire. */
  predicate AllShouldFire(fired: seq<Alarm>, alarms: seq<Alarm>, hhmm: string, minuteKey: string, last: map<int, string>)
  {
    forall i :: 0 <= i < |fired| ==> fired[i] in alarms && ShouldFire(fired[i], hhmm, minuteKey, last)
  }

  /** A tick fires only alarms of the list that are switched on, set to the
      current minute of the day and not yet fired in this minute. */
  lemma {:induction false} TickFiresOnlyDue(alarms: seq<Alarm>, hhmm: string, minuteKey: string, last: map<int, string>)
    ensures AllShouldFire(Tick(alarms, hhmm, minuteKey, last).fired, alarms, hhmm, minuteKey, last)
  {
    if alarms != [] {
      var a := alarms[0];
      var r := Tick(alarms, hhmm, minuteKey, last);
      if ShouldFire(a, hhmm, minuteKey, last) {
        var last' := last[a.id := minuteKey];
        var rest := Tick(alarms[1..], hhmm, minuteKey, last');
        TickFiresOnlyDue(alarms[1..], hhmm, minuteKey, last');
        forall i | 0 <= i < |r.fired|
          ensures r.fired[i] in alarms && ShouldFire(r.fired[i], hhmm, minuteKey, last)
        {
          if i > 0 {
            assert r.fired[i] == rest.fired[i - 1];
            assert ShouldFire(rest.fired[i - 1], hhmm, minuteKey, last');
          }
        }
      } else {
        TickFiresOnlyDue(alarms[1..], hhmm, minuteKey, last);
      }
    }
  }

  /** The last-fired map after deciding alarm `a`. */
  function MarkIfFires(a: Alarm, hhmm: string, minuteKey: string, last: map<int, string>): map<int, string>
  {
    if ShouldFire(a, hhmm, minuteKey, last) then last[a.id := minuteKey] else last
  }

  /** One step of a tick: the head of the list is decided first. */
  lemma TickCons(alarms: seq<Alarm>, hhmm: string, minuteKey: string, last: map<int, string>)
    requires alarms != []
    ensures var a := alarms[0];
            var rest := Tick(alarms[1..], hhmm, minuteKey, MarkIfFires(a, hhmm, minuteKey, last));
            && Tick(alarms, hhmm, minuteKey, last).fired ==
                 (if ShouldFire(a, hhmm, minuteKey, last) then [a] else []) + rest.fired
            && Tick(alarms, hhmm, minuteKey, last).last == rest.last
  {
  }

  /** One step of a tick over a suffix of the list: the alarms fired before
      the suffix, then those of its head, then those of the rest. */
  lemma TickSuffixStep(alarms: seq<Alarm>, i: nat, hhmm: string, minuteKey: string,
                       last: map<int, string>, done: seq<Alarm>)
    requires i < |alarms|
    ensures var a := alarms[i];
            var rest := Tick(alarms[i + 1..], hhmm, minuteKey, MarkIfFires(a, hhmm, minuteKey, last));
            && (done + (if ShouldFire(a, hhmm, minuteKey, last) then [a] else [])) + rest.fired
                 == done + Tick(alarms[i..], hhmm, minuteKey, last).fired
            && rest.last == Tick(alarms[i..], hhmm, minuteKey, last).last
  {
    var s := alarms[i..];
    assert s[0] == alarms[i] && s[1..] == alarms[i + 1..];
    TickCons(s, hhmm, minuteKey, last);
    var step := if ShouldFire(alarms[i], hhmm, minuteKey, last) then [alarms[i]] else [];
    var rest := Tick(alarms[i + 1..], hhmm, minuteKey, MarkIfFires(alarms[i], hhmm, minuteKey, last));
    assert (done + step) + rest.fired == done + (step + rest.fired);
  }

  /** The bookkeeping of one step of a poll: the fires so far grow by the
      alarm when it fires, and the overlay then shows it. */
  lemma PollStep(before: seq<Alarm>, done: seq<Alarm>, fires: bool, a: Alarm, current: Option<Alarm>)
    ensures var step := if fires then [a] else [];
            && (before + done) + step == before + (done + step)
            && LastFired(done + step, current) == (if fires then Some(a) else LastFired(done, current))
            && (done + step != []) == (done != [] || fires)
  {
    var step := if fires then [a] else [];
    if !fires {
      assert done + step == done;
    }
  }

  lemma DueIdsCons(alarms: seq<Alarm>, hhmm: string)
    requires alarms != []
    ensures DueIds(alarms, hhmm) == (if Due(alarms[0], hhmm) then {alarms[0].id} else {}) + DueIds(alarms[1..], hhmm)
  {
    assert alarms == [alarms[0]] + alarms[1..];
  }

  /** `last` with every id of `ids` mapped to `key`. */
  function MarkAll(last: map<int, string>, ids: set<int>, key: string): map<int, string>
  {
    last + map id | id in ids :: key
  }

  lemma MarkOneMore(last: map<int, string>, x: int, ids: set<int>, key: string)
    ensures MarkAll(last[x := key], ids, key) == MarkAll(last, {x} + ids, key)
    ensures x in last && last[x] == key ==> MarkAll(last, ids, key) == MarkAll(last, {x} + ids, key)
  {
    var l := MarkAll(last[x := key], ids, key);
    var r := MarkAll(last, {x} + ids, key);
    assert l.Keys == r.Keys;
    if x in last && last[x] == key {
      assert MarkAll(last, ids, key).Keys == r.Keys;
    }
  }

  /** After a tick every due id is marked with the minute key, and no other
      entry of the last-fired map has changed. */
  lemma {:induction false} TickMarks(alarms: seq<Alarm>, hhmm: string, minuteKey: string, last: map<int, string>)
    ensures Tick(alarms, hhmm, minuteKey, last).last == MarkAll(last, DueIds(alarms, hhmm), minuteKey)
  {
    if alarms == [] {
      assert MarkAll(last, {}, minuteKey) == last;
    } else {
      var a := alarms[0];
      DueIdsCons(alarms, hhmm);
      var ids := DueIds(alarms[1..], hhmm);
      MarkOneMore(last, a.id, ids, minuteKey);
      if ShouldFire(a, hhmm, minuteKey, last) {
        var last' := last[a.id := minuteKey];
        assert Tick(alarms, hhmm, minuteKey, last).last == Tick(alarms[1..], hhmm, minuteKey, last').last;
        TickMarks(alarms[1..], hhmm, minuteKey, last');
        assert DueIds(alarms, hhmm) == {a.id} + ids;
      } else {
        assert Tick(alarms, hhmm, minuteKey, last) == Tick(alarms[1..], hhmm, minuteKey, last);
        TickMarks(alarms[1..], hhmm, minuteKey, last);
        if Due(a, hhmm) {
          assert DueIds(alarms, hhmm) == {a.id} + ids;
        } else {
          assert DueIds(alarms, hhmm) == ids;
        }
      }
    }
  }

  /** No two alarms of the list share an id. */
  predicate UniqueIds(alarms: seq<Alarm>)
  {
    forall i, j :: 0 <= i < j < |alarms| ==> alarms[i].id != alarms[j].id
  }

  /** A tick never fires two alarms with the same id. */
  lemma {:induction false} TickDistinct(alarms: seq<Alarm>, hhmm: string, minuteKey: string, last: map<int, string>)
    ensures UniqueIds(Tick(alarms, hhmm, minuteKey, last).fired)
  {
    if alarms != [] {
      var a := alarms[0];
      if ShouldFire(a, hhmm, minuteKey, last) {
        var last' := last[a.id := minuteKey];
        var rest := Tick(alarms[1..], hhmm, minuteKey, last');
        var r := Tick(alarms, hhmm, minuteKey, last);
        TickDistinct(alarms[1..], hhmm, minuteKey, last');
        TickFiresOnlyDue(alarms[1..], hhmm, minuteKey, last');
        assert r.fired == [a] + rest.fired;
        forall k | 0 <= k < |rest.fired|
          ensures rest.fired[k].id != a.id
        {
          assert ShouldFire(rest.fired[k], hhmm, minuteKey, last');
        }
        forall i, j | 0 <= i < j < |r.fired|
          ensures r.fired[i].id != r.fired[j].id
        {
          assert r.fired[j] == rest.fired[j - 1];
          if i > 0 {
            assert r.fired[i] == rest.fired[i - 1];
            assert rest.fired[i - 1].id != rest.fired[j - 1].id;
          } else {
            assert r.fired[i] == a;
          }
        }
      } else {
        assert Tick(alarms, hhmm, minuteKey, last) == Tick(alarms[1..], hhmm, minuteKey, last);
        TickDistinct(alarms[1..], hhmm, minuteKey, last);
      }
    }
  }

  /** Every alarm that should fire is fired, or another alarm with its id is. */
  lemma {:induction false} TickComplete(alarms: seq<Alarm>, hhmm: string, minuteKey: string, last: map<int, string>)
    ensures forall a :: a in alarms && ShouldFire(a, hhmm, minuteKey, last) ==>
              a.id in IdsOf(Tick(alarms, hhmm, minuteKey, last).fired)
  {
    if alarms != [] {
      var h := alarms[0];
      var fires := ShouldFire(h, hhmm, minuteKey, last);
      var last' := if fires then last[h.id := minuteKey] else last;
      var rest := Tick(alarms[1..], hhmm, minuteKey, last');
      var r := Tick(alarms, hhmm, minuteKey, last);
      TickComplete(alarms[1..], hhmm, minuteKey, last');
      assert r.fired == (if fires then [h] else []) + rest.fired;
      assert IdsOf(r.fired) == (if fires then {h.id} else {}) + IdsOf(rest.fired);
      assert alarms == [h] + alarms[1..];
      forall a | a in alarms && ShouldFire(a, hhmm, minuteKey, last)
        ensures a.id in IdsOf(r.fired)
      {
        if a != h && a.id != h.id {
          assert a in alarms[1..];
        }
      }
    }
  }

  /** With distinct ids, a tick fires exactly the alarms that should fire,
      in list order. */
  lemma {:induction false} TickFiresExactly(alarms: seq<Alarm>, hhmm: string, minuteKey: string, last: map<int, string>)
    requires UniqueIds(alarms)
    ensures Tick(alarms, hhmm, minuteKey, last).fired == Filter(alarms, (a: Alarm) => ShouldFire(a, hhmm, minuteKey, last))
  {
    if alarms != [] {
      var a := alarms[0];
      assert UniqueIds(alarms[1..]) by {
        forall i, j | 0 <= i < j < |alarms[1..]| ensures alarms[1..][i].id != alarms[1..][j].id {
          assert alarms[1..][i] == alarms[i + 1] && alarms[1..][j] == alarms[j + 1];
        }
      }
      if ShouldFire(a, hhmm, minuteKey, last) {
        var last' := last[a.id := minuteKey];
        TickFiresExactly(alarms[1..], hhmm, minuteKey, last');
        forall i | 0 <= i < |alarms[1..]|
          ensures ShouldFire(alarms[1..][i], hhmm, minuteKey, last) == ShouldFire(alarms[1..][i], hhmm, minuteKey, last')
        {
          assert alarms[1..][i] == alarms[i + 1];
        }
        FilterPointwise(alarms[1..], (x: Alarm) => ShouldFire(x, hhmm, minuteKey, last),
                        (x: Alarm) => ShouldFire(x, hhmm, minuteKey, last'));
      } else {
        TickFiresExactly(alarms[1..], hhmm, minuteKey, last);
      }
    }
  }

  /** Further ticks in the same minute fire nothing and change nothing. */
  lemma TickSameMinuteAgain(alarms: seq<Alarm>, hhmm: string, minuteKey: string, last: map<int, string>)
    ensures var first := Tick(alarms, hhmm, minuteKey, last);
            Tick(alarms, hhmm, minuteKey, first.last) == TickResult([], first.last)
  {
    var first := Tick(alarms, hhmm, minuteKey, last);
    var second := Tick(alarms, hhmm, minuteKey, first.last);
    TickMarks(alarms, hhmm, minuteKey, last);
    TickMarks(alarms, hhmm, minuteKey, first.last);
    TickFiresOnlyDue(alarms, hhmm, minuteKey, first.last);
    forall a | a in alarms
      ensures !ShouldFire(a, hhmm, minuteKey, first.last)
    {
      if Due(a, hhmm) {
        assert a.id in DueIds(alarms, hhmm);
      }
    }
    assert second.fired == [];
    assert MarkAll(first.last, DueIds(alarms, hhmm), minuteKey) == first.last;
  }

  /** A tick in a new minute fires again every due alarm (ids distinct):
      the marks of the previous minute do not hold it back. */
  lemma TickNewMinute(alarms: seq<Alarm>, hhmm: string, key1: string, key2: string, last: map<int, string>)
    requires UniqueIds(alarms) && key1 != key2
    ensures var first := Tick(alarms, hhmm, key1, last);
            Tick(alarms, hhmm, key2, first.last).fired == Filter(alarms, (a: Alarm) => Due(a, hhmm))
  {
    var first := Tick(alarms, hhmm, key1, last);
    TickMarks(alarms, hhmm, key1, last);
    TickFiresExactly(alarms, hhmm, key2, first.last);
    forall i | 0 <= i < |alarms|
      ensures ShouldFire(alarms[i], hhmm, key2, first.last) == Due(alarms[i], hhmm)
    {
      if Due(alarms[i], hhmm) {
        assert alarms[i].id in DueIds(alarms, hhmm);
      }
    }
    FilterPointwise(alarms, (a: Alarm) => ShouldFire(a, hhmm, key2, first.last), (a: Alarm) => Due(a, hhmm));
  }

  /** Three polls within the minute 08:00 fire an 08:00 alarm once; a poll
      at 08:00 on the next day fires it again. */
  lemma FireOncePerMinute()
    ensures var alarms := [Alarm(1, "08:00", "Morning Alarm", true)];
            var t1 := Tick(alarms, "08:00", "2024-01-15T08:00", map[]);
            var t2 := Tick(alarms, "08:00", "2024-01-15T08:00", t1.last);
            var t3 := Tick(alarms, "08:00", "2024-01-15T08:00", t2.last);
            var t4 := Tick(alarms, "08:00", "2024-01-16T08:00", t3.last);
            t1.fired == alarms && t2.fired == [] && t3.fired == [] && t4.fired == alarms
  {
    var alarms := [Alarm(1, "08:00", "Morning Alarm", true)];
    var t1 := Tick(alarms, "08:00", "2024-01-15T08:00", map[]);
    TickSameMinuteAgain(alarms, "08:00", "2024-01-15T08:00", map[]);
    TickNewMinute(alarms, "08:00", "2024-01-15T08:00", "2024-01-16T08:00", map[]);
    FilterSingleton(alarms[0], (a: Alarm) => Due(a, "08:00"));
  }

  /** The overlay's alarm after firing `fired` in order: the last of them,
      or `current` when nothing fired. */
  function LastFired(fired: seq<Alarm>, current: Option<Alarm>): Option<Alarm>
  {
    if fired == [] then current else Some(fired[|fired| - 1])
  }

  // =====================================================================
  // The scheduler's state (lastTriggered, snoozeTimeouts, the interval)
  // =====================================================================

  /** A pending one-shot snooze timer: the alarm it re-fires and its delay. */
  datatype PendingSnooze = PendingSnooze(alarm: Alarm, minutes: int)

  /** `snoozeTimeouts` maps an alarm id to the handle of its live timer,
      and every live timer is the one registered for its alarm's id. */
  ghost predicate SnoozesConsistent(snoozeTimeouts: map<int, nat>, timers: map<nat, PendingSnooze>)
  {
    && (forall id :: id in snoozeTimeouts ==>
          snoozeTimeouts[id] in timers && timers[snoozeTimeouts[id]].alarm.id == id)
    && (forall h :: h in timers ==>
          timers[h].alarm.id in snoozeTimeouts && snoozeTimeouts[timers[h].alarm.id] == h)
  }

  /** After a tick, the entry of an id none of whose alarms is due is as
      before, and the entry of every due id is the minute key. */
  lemma TickLeavesOthers(alarms: seq<Alarm>, hhmm: string, minuteKey: string, last: map<int, string>)
    ensures var r := Tick(alarms, hhmm, minuteKey, last);
            && (forall id :: id !in DueIds(alarms, hhmm) ==>
                  (id in r.last <==> id in last) && (id in last ==> r.last[id] == last[id]))
            && (forall a :: a in alarms && Due(a, hhmm) ==> a.id in r.last && r.last[a.id] == minuteKey)
  {
    TickMarks(alarms, hhmm, minuteKey, last);
  }

  /** At most one snooze timer is pending per alarm id. */
  lemma OnePendingPerId(snoozeTimeouts: map<int, nat>, timers: map<nat, PendingSnooze>, h1: nat, h2: nat)
    requires SnoozesConsistent(snoozeTimeouts, timers)
    requires h1 in timers && h2 in timers && timers[h1].alarm.id == timers[h2].alarm.id
    ensures h1 == h2
  {
  }

  class AlarmScheduler {
    /** alarm id -> minute key of the minute it last fired in */
    var lastTriggered: map<int, string>
    /** alarm id -> handle of its pending snooze timer */
    var snoozeTimeouts: map<int, nat>
    /** the live snooze timers, by handle (cleared timers are gone) */
    var timers: map<nat, PendingSnooze>
    /** the handle the next `setTimeout` returns */
    var nextHandle: nat
    /** whether the 10-second poll interval is installed */
    var running: bool
    /** the firing overlay's alarm reference; `None` until the overlay exists */
    var overlay: Option<Alarm>
    /** whether the firing overlay is shown */
    var overlayActive: bool
    /** every `fireAlarm` call so far, in order */
    var fired: seq<Alarm>

    ghost predicate Valid()
      reads this
    {
      && SnoozesConsistent(snoozeTimeouts, timers)
      && 1 <= nextHandle && (forall h :: h in timers ==> 1 <= h < nextHandle)
      && (overlayActive ==> overlay.Some?)
    }

    constructor ()
      ensures Valid()
      ensures lastTriggered == map[] && snoozeTimeouts == map[] && timers == map[]
      ensures !running && overlay.None? && !overlayActive && fired == []
    {
      lastTriggered, snoozeTimeouts, timers := map[], map[], map[];
      nextHandle := 1;
      running := false;
      overlay, overlayActive := None, false;
      fired := [];
    }

    /** `fireAlarm`: shows the overlay for `a` (sound and vibration are not
        modelled) and records the fire. */
    method FireAlarm(a: Alarm)
      requires Valid()
      modifies this
      ensures Valid()
      ensures fired == old(fired) + [a] && overlay == Some(a) && overlayActive
      ensures lastTriggered == old(lastTriggered) && snoozeTimeouts == old(snoozeTimeouts)
      ensures timers == old(timers) && nextHandle == old(nextHandle) && running == old(running)
    {
      overlay := Some(a);
      overlayActive := true;
      fired := fired + [a];
    }

    /** The body of the poll for one alarm: fire it if it is due and has
        not fired in this minute yet, and mark it with the minute key. */
    method CheckAlarm(a: Alarm, hhmm: string, minuteKey: string)
      requires Valid()
      modifies this
      ensures Valid()
      ensures var fires := ShouldFire(a, hhmm, minuteKey, old(lastTriggered));
              && lastTriggered == MarkIfFires(a, hhmm, minuteKey, old(lastTriggered))
              && fired == old(fired) + (if fires then [a] else [])
              && overlay == (if fires then Some(a) else old(overlay))
              && overlayActive == (fires || old(overlayActive))
      ensures snoozeTimeouts == old(snoozeTimeouts) && timers == old(timers)
      ensures nextHandle == old(nextHandle) && running == old(running)
    {
      if a.enabled && a.time == hhmm {
        if !(a.id in lastTriggered && lastTriggered[a.id] == minuteKey) {
          lastTriggered := lastTriggered[a.id := minuteKey];
          FireAlarm(a);
        }
      }
    }

    /** `checkAlarmsToFire`: one poll, alarm by alarm in list order. */
    method CheckAlarmsToFire(alarms: seq<Alarm>, hhmm: string, minuteKey: string)
      requires Valid()
      modifies this
      ensures Valid()
      ensures lastTriggered == Tick(alarms, hhmm, minuteKey, old(lastTriggered)).last
      ensures fired == old(fired) + Tick(alarms, hhmm, minuteKey, old(lastTriggered)).fired
      ensures overlay == LastFired(Tick(alarms, hhmm, minuteKey, old(lastTriggered)).fired, old(overlay))
      ensures overlayActive == (old(overlayActive) || Tick(alarms, hhmm, minuteKey, old(lastTriggered)).fired != [])
      ensures snoozeTimeouts == old(snoozeTimeouts) && timers == old(timers)
      ensures nextHandle == old(nextHandle) && running == old(running)
    {
      ghost var whole := Tick(alarms, hhmm, minuteKey, lastTriggered);
      ghost var done: seq<Alarm> := [];
      var i := 0;
      while i < |alarms|
        invariant 0 <= i <= |alarms|
        invariant Valid()
        invariant done + Tick(alarms[i..], hhmm, minuteKey, lastTriggered).fired == whole.fired
        invariant Tick(alarms[i..], hhmm, minuteKey, lastTriggered).last == whole.last
        invariant fired == old(fired) + done
        invariant overlay == LastFired(done, old(overlay))
        invariant overlayActive == (old(overlayActive) || done != [])
        invariant snoozeTimeouts == old(snoozeTimeouts) && timers == old(timers)
        invariant nextHandle == old(nextHandle) && running == old(running)
      {
        var a := alarms[i];
        ghost var fires := ShouldFire(a, hhmm, minuteKey, lastTriggered);
        TickSuffixStep(alarms, i, hhmm, minuteKey, lastTriggered, done);
        PollStep(old(fired), done, fires, a, old(overlay));
        CheckAlarm(a, hhmm, minuteKey);
        done := done + (if fires then [a] else []);
        i := i + 1;
      }
      assert alarms[i..] == [];
    }

    /** `startAlarmScheduler`: installs the poll interval and polls at once;
        a no-op while the interval is already installed. */
    method StartAlarmScheduler(alarms: seq<Alarm>, hhmm: string, minuteKey: string)
      requires Valid()
      modifies this
      ensures Valid() && running
      ensures old(running) ==> lastTriggered == old(lastTriggered) && fired == old(fired)
                               && overlay == old(overlay) && overlayActive == old(overlayActive)
      ensures !old(running) ==>
                var t := Tick(alarms, hhmm, minuteKey, old(lastTriggered));
                && lastTriggered == t.last && fired == old(fired) + t.fired
                && overlay == LastFired(t.fired, old(overlay))
                && overlayActive == (old(overlayActive) || t.fired != [])
      ensures snoozeTimeouts == old(snoozeTimeouts) && timers == old(timers) && nextHandle == old(nextHandle)
    {
      if running {
        return;
      }
      running := true;
      CheckAlarmsToFire(alarms, hhmm, minuteKey);
    }

    /** `stopAlarmScheduler`: always leaves the scheduler stopped. */
    method StopAlarmScheduler()
      requires Valid()
      modifies this
      ensures Valid() && !running
      ensures lastTriggered == old(lastTriggered) && fired == old(fired)
      ensures overlay == old(overlay) && overlayActive == old(overlayActive)
      ensures snoozeTimeouts == old(snoozeTimeouts) && timers == old(timers) && nextHandle == old(nextHandle)
    {
      running := false;
    }

    /** The 10-second interval elapsing: a poll, if the interval is installed. */
    method IntervalElapsed(alarms: seq<Alarm>, hhmm: string, minuteKey: string)
      requires Valid()
      modifies this
      ensures Valid() && running == old(running)
      ensures !old(running) ==> lastTriggered == old(lastTriggered) && fired == old(fired)
                                && overlay == old(overlay) && overlayActive == old(overlayActive)
      ensures old(running) ==>
                var t := Tick(alarms, hhmm, minuteKey, old(lastTriggered));
                && lastTriggered == t.last && fired == old(fired) + t.fired
                && overlay == LastFired(t.fired, old(overlay))
                && overlayActive == (old(overlayActive) || t.fired != [])
      ensures snoozeTimeouts == old(snoozeTimeouts) && timers == old(timers) && nextHandle == old(nextHandle)
    {
      if running {
        CheckAlarmsToFire(alarms, hhmm, minuteKey);
      }
    }

    /** `dismissFiringAlarm`: hides the overlay; the alarm stays scheduled. */
    method DismissFiringAlarm()
      requires Valid()
      modifies this
      ensures Valid()
      ensures overlayActive == (old(overlayActive) && old(overlay).None?)
      ensures overlay == old(overlay) && fired == old(fired) && lastTriggered == old(lastTriggered)
      ensures snoozeTimeouts == old(snoozeTimeouts) && timers == old(timers)
      ensures nextHandle == old(nextHandle) && running == old(running)
    {
      if overlay.None? {
        return;
      }
      overlayActive := false;
    }

    /** `snoozeFiringAlarm(minutes)`: hides the overlay, clears the pending
        snooze of the overlay's alarm, if any, and registers a new one. */
    method SnoozeFiringAlarm(minutes: int)
      requires Valid()
      modifies this
      ensures Valid()
      ensures old(overlay).None? ==>
                && overlayActive == old(overlayActive)
                && snoozeTimeouts == old(snoozeTimeouts) && timers == old(timers)
                && nextHandle == old(nextHandle)
      ensures old(overlay).Some? ==>
                var a := old(overlay).value;
                var h := old(nextHandle);
                var cleared := if a.id in old(snoozeTimeouts) then old(timers) - {old(snoozeTimeouts)[a.id]} else old(timers);
                && !overlayActive
                && snoozeTimeouts == old(snoozeTimeouts)[a.id := h]
                && timers == cleared[h := PendingSnooze(a, minutes)]
                && nextHandle == h + 1
      ensures overlay == old(overlay) && fired == old(fired) && lastTriggered == old(lastTriggered)
      ensures running == old(running)
    {
      if overlay.None? {
        return;
      }
      var a := overlay.value;
      overlayActive := false;
      if a.id in snoozeTimeouts && snoozeTimeouts[a.id] != 0 {
        timers := timers - {snoozeTimeouts[a.id]};
      }
      var h := nextHandle;
      nextHandle := nextHandle + 1;
      timers := timers[h := PendingSnooze(a, minutes)];
      snoozeTimeouts := snoozeTimeouts[a.id := h];
    }

    /** The snooze timer `h` elapsing: a live timer re-fires its alarm
        (bypassing the time match) and removes its entry; a cleared timer
        never runs. */
    method SnoozeElapsed(h: nat)
      requires Valid()
      modifies this
      ensures Valid()
      ensures h !in old(timers) ==>
                && fired == old(fired) && overlay == old(overlay) && overlayActive == old(overlayActive)
                && snoozeTimeouts == old(snoozeTimeouts) && timers == old(timers)
      ensures h in old(timers) ==>
                var a := old(timers)[h].alarm;
                && fired == old(fired) + [a] && overlay == Some(a) && overlayActive
                && snoozeTimeouts == old(snoozeTimeouts) - {a.id}
                && timers == old(timers) - {h}
      ensures lastTriggered == old(lastTriggered) && nextHandle == old(nextHandle) && running == old(running)
    {
      if h !in timers {
        return;
      }
      var a := timers[h].alarm;
      FireAlarm(a);
      snoozeTimeouts := snoozeTimeouts - {a.id};
      timers := timers - {h};
    }
  }

  // =====================================================================
  // The alarm list (AppData.alarms) and its edits
  // =====================================================================

  /** `alarms.filter(a => a.id !== id)`. */
  function WithoutAlarm(alarms: seq<Alarm>, id: int): (r: seq<Alarm>)
    ensures forall i :: 0 <= i < |r| ==> r[i].id != id && r[i] in alarms
    ensures forall i :: 0 <= i < |alarms| && alarms[i].id != id ==> alarms[i] in r
    ensures (forall i :: 0 <= i < |alarms| ==> alarms[i].id != id) ==> r == alarms
  {
    FilterKeepsAll(alarms, (a: Alarm) => a.id != id);
    Filter(alarms, (a: Alarm) => a.id != id)
  }

  /** The list with the first alarm carrying `id` switched on or off. */
  function Toggled(alarms: seq<Alarm>, id: int): (r: seq<Alarm>)
    ensures |r| == |alarms|
    ensures match FindIndex(alarms, (a: Alarm) => a.id == id)
              case None => r == alarms
              case Some(k) => r[k] == alarms[k].(enabled := !alarms[k].enabled)
                              && forall j :: 0 <= j < |r| && j != k ==> r[j] == alarms[j]
  {
    match FindIndex(alarms, (a: Alarm) => a.id == id)
    case None => alarms
    case Some(k) => alarms[k := alarms[k].(enabled := !alarms[k].enabled)]
  }

  /** Toggling the same id twice restores the list. */
  lemma ToggleTwice(alarms: seq<Alarm>, id: int)
    ensures Toggled(Toggled(alarms, id), id) == alarms
  {
    var once := Toggled(alarms, id);
    match FindIndex(alarms, (a: Alarm) => a.id == id)
    case None =>
    case Some(k) =>
      assert forall j :: 0 <= j < |once| ==> once[j].id == alarms[j].id;
      assert FindIndex(once, (a: Alarm) => a.id == id) == Some(k) by {
        FindIndexSameIds(alarms, once, id);
      }
  }

  /** Only ids decide where `find(x => x.id === id)` stops. */
  lemma {:induction false} FindIndexSameIds(s: seq<Alarm>, t: seq<Alarm>, id: int)
    requires |s| == |t| && forall j :: 0 <= j < |s| ==> s[j].id == t[j].id
    ensures FindIndex(s, (a: Alarm) => a.id == id) == FindIndex(t, (a: Alarm) => a.id == id)
  {
    if s != [] {
      FindIndexSameIds(s[1..], t[1..], id);
    }
  }

  /** The list with the first alarm carrying `id` given a new time and label (`name`). */
  function Edited(alarms: seq<Alarm>, id: int, time: string, name: string): (r: seq<Alarm>)
    ensures |r| == |alarms|
    ensures forall j :: 0 <= j < |r| ==> r[j].id == alarms[j].id && r[j].enabled == alarms[j].enabled
    ensures match FindIndex(alarms, (a: Alarm) => a.id == id)
              case None => r == alarms
              case Some(k) => r[k].time == time && r[k].name == name
                              && forall j :: 0 <= j < |r| && j != k ==> r[j] == alarms[j]
  {
    match FindIndex(alarms, (a: Alarm) => a.id == id)
    case None => alarms
    case Some(k) => alarms[k := alarms[k].(time := time, name := name)]
  }

  /** An alarm added under an id no other alarm has is removed again by
      deleting that id. */
  lemma AddThenRemove(alarms: seq<Alarm>, a: Alarm)
    requires forall i :: 0 <= i < |alarms| ==> alarms[i].id != a.id
    ensures WithoutAlarm(alarms + [a], a.id) == alarms
  {
    FilterConcat(alarms, [a], (x: Alarm) => x.id != a.id);
    FilterAll(alarms, (x: Alarm) => x.id != a.id);
    FilterSingleton(a, (x: Alarm) => x.id != a.id);
  }

  class AlarmList {
    var alarms: seq<Alarm>

    constructor (initial: seq<Alarm>)
      ensures alarms == initial
    {
      alarms := initial;
    }

    /** `addAlarm`: `time` and `name` are the answers of the two prompts
        (`None` for a cancelled prompt), `now` is `Date.now()`. A cancelled
        or empty time adds nothing; a missing label becomes "Alarm". */
    method AddAlarm(time: Option<string>, name: Option<string>, now: int)
      modifies this
      ensures time.None? || time == Some("") ==> alarms == old(alarms)
      ensures time.Some? && time != Some("") ==>
                var l := if name.None? || name == Some("") then "Alarm" else name.value;
                alarms == old(alarms) + [Alarm(now, time.value, l, true)]
    {
      if time.None? || time.value == "" {
        return;
      }
      var l := if name.None? || name.value == "" then "Alarm" else name.value;
      alarms := alarms + [Alarm(now, time.value, l, true)];
    }

    /** `removeAlarm`: drops every alarm with the id, keeping the rest in order. */
    method RemoveAlarm(id: int)
      modifies this
      ensures alarms == WithoutAlarm(old(alarms), id)
    {
      alarms := Filter(alarms, (a: Alarm) => a.id != id);
    }

    /** `toggleAlarm`: flips `enabled` on the first alarm with the id. */
    method ToggleAlarm(id: int)
      modifies this
      ensures alarms == Toggled(old(alarms), id)
    {
      var k := FindIndex(alarms, (a: Alarm) => a.id == id);
      if k.None? {
        return;
      }
      var a := alarms[k.value];
      alarms := alarms[k.value := a.(enabled := !a.enabled)];
    }

    /** `saveEditAlarm`: `edit` holds the values of the two edit inputs, or
        `None` when the inputs for this id are not on the page. */
    method SaveEditAlarm(id: int, edit: Option<(string, string)>)
      modifies this
      ensures edit.None? ==> alarms == old(alarms)
      ensures edit.Some? ==> alarms == Edited(old(alarms), id, edit.value.0, edit.value.1)
    {
      if edit.None? {
        return;
      }
      var k := FindIndex(alarms, (a: Alarm) => a.id == id);
      if k.None? {
        return;
      }
      var a := alarms[k.value];
      alarms := alarms[k.value := a.(time := edit.value.0, name := edit.value.1)];
    }
  }

  // =====================================================================
  // Dashboard queries
  // =====================================================================

  /** A record of the home page's `AppData.events`: dates are day numbers,
      `None` where the field is absent or empty. */
  datatype Item = Item(id: int, kind: Kind, title: string, startDate: Option<Day>,
                       dueDate: Option<Day>, completed: bool)

  /** `e.dueDate || e.startDate`. */
  function DueDay(e: Item): Option<Day>
  {
    if e.dueDate.Some? then e.dueDate else e.startDate
  }

  /** An open task due between today and `days` days from now. */
  predicate IsUpcomingTask(e: Item, today: Day, days: int)
  {
    e.kind == Task && !e.completed && DueDay(e).Some? && 0 <= DueDay(e).value - today <= days
  }

  /** `getUpcomingTasks(days)`: the open tasks due within `days` days, in
      store order. */
  function UpcomingTasks(events: seq<Item>, today: Day, days: int): (r: seq<Item>)
    ensures forall i :: 0 <= i < |r| ==> r[i] in events && r[i].kind == Task && !r[i].completed
    ensures forall i :: 0 <= i < |r| ==> DueDay(r[i]).Some? && 0 <= DueDay(r[i]).value - today <= days
    ensures forall i :: 0 <= i < |events| && IsUpcomingTask(events[i], today, days) ==> events[i] in r
  {
    Filter(events, (e: Item) => IsUpcomingTask(e, today, days))
  }

  /** A task due in exactly `days` days is listed; one due a day later is not. */
  lemma UpcomingWindowEdges(t: Item, today: Day, days: nat)
    requires t.kind == Task && !t.completed
    ensures UpcomingTasks([t.(dueDate := Some(today + days))], today, days) == [t.(dueDate := Some(today + days))]
    ensures UpcomingTasks([t.(dueDate := Some(today + days + 1))], today, days) == []
  {
    FilterSingleton(t.(dueDate := Some(today + days)), (e: Item) => IsUpcomingTask(e, today, days));
    FilterSingleton(t.(dueDate := Some(today + days + 1)), (e: Item) => IsUpcomingTask(e, today, days));
  }

  /** `getTodayEvents()`: the events that start today, in store order. */
  function TodayEvents(events: seq<Item>, today: Day): (r: seq<Item>)
    ensures forall i :: 0 <= i < |r| ==> r[i] in events && r[i].kind == Event && r[i].startDate == Some(today)
    ensures forall i :: 0 <= i < |events| && events[i].kind == Event && events[i].startDate == Some(today) ==> events[i] in r
  {
    Filter(events, (e: Item) => e.kind == Event && e.startDate == Some(today))
  }

  // =====================================================================
  // escapeHtml
  // =====================================================================

  /** What `escapeHtml` turns one character into. */
  function EscapeChar(c: char): string
  {
    if c == '&' then "&amp;"
    else if c == '<' then "&lt;"
    else if c == '>' then "&gt;"
    else if c == '"' then "&quot;"
    else if c == '\'' then "&#039;"
    else [c]
  }

  /** Character-by-character escaping: the reference for `escapeHtml`. */
  function EscapeEach(s: string): (r: string)
    ensures |r| >= |s|
  {
    if s == [] then [] else EscapeChar(s[0]) + EscapeEach(s[1..])
  }

  /** The characters that would end a text node or an attribute value. */
  predicate Special(c: char)
  {
    c == '<' || c == '>' || c == '"' || c == '\''
  }

  lemma EscapeCharSafe(c: char)
    ensures forall i :: 0 <= i < |EscapeChar(c)| ==> !Special(EscapeChar(c)[i])
  {
  }

  /** The escaped text holds none of `<`, `>`, `"` and `'`. */
  lemma {:induction false} EscapeEachSafe(s: string)
    ensures forall i :: 0 <= i < |EscapeEach(s)| ==> !Special(EscapeEach(s)[i])
  {
    if s != [] {
      EscapeCharSafe(s[0]);
      EscapeEachSafe(s[1..]);
      var e, rest := EscapeChar(s[0]), EscapeEach(s[1..]);
      forall i | 0 <= i < |e + rest|
        ensures !Special((e + rest)[i])
      {
        if i < |e| {
          assert (e + rest)[i] == e[i];
        } else {
          assert (e + rest)[i] == rest[i - |e|];
        }
      }
    }
  }

  /** Text without special characters passes through unchanged. */
  lemma {:induction false} EscapeEachPlain(s: string)
    requires forall i :: 0 <= i < |s| ==> EscapeChar(s[i]) == [s[i]]
    ensures EscapeEach(s) == s
  {
    if s != [] {
      EscapeEachPlain(s[1..]);
      assert [s[0]] + s[1..] == s;
    }
  }

  /** The character an entity at the head of `s` stands for, with the
      entity's length; a character that begins none of the five entities
      `escapeHtml` writes stands for itself. */
  function DecodeHead(s: string): (r: (char, nat))
    requires s != []
    ensures 1 <= r.1 <= |s|
  {
    if s[0] != '&' then (s[0], 1)
    else if |s| >= 5 && s[1] == 'a' && s[2] == 'm' && s[3] == 'p' && s[4] == ';' then ('&', 5)
    else if |s| >= 4 && s[1] == 'l' && s[2] == 't' && s[3] == ';' then ('<', 4)
    else if |s| >= 4 && s[1] == 'g' && s[2] == 't' && s[3] == ';' then ('>', 4)
    else if |s| >= 6 && s[1] == 'q' && s[2] == 'u' && s[3] == 'o' && s[4] == 't' && s[5] == ';' then ('"', 6)
    else if |s| >= 6 && s[1] == '#' && s[2] == '0' && s[3] == '3' && s[4] == '9' && s[5] == ';' then ('\'', 6)
    else ('&', 1)
  }

  /** Decoding of the five entities `escapeHtml` writes, as an HTML parser
      reads them back. */
  function Unescape(s: string): string
    decreases |s|
  {
    if s == [] then []
    else
      var (c, n) := DecodeHead(s);
      [c] + Unescape(s[n..])
  }

  /** Decoding reads back the escape of one character. */
  lemma UnescapeStep(c: char, rest: string, s: string)
    requires s == EscapeChar(c) + rest
    ensures Unescape(s) == [c] + Unescape(rest)
  {
    var e := EscapeChar(c);
    assert forall k :: 0 <= k < |e| ==> s[k] == e[k];
    assert DecodeHead(s) == (c, |e|);
    assert s[|e|..] == rest;
  }

  /** Escaping loses nothing, so every `&` it writes begins an entity:
      decoding the escaped text gives back the original. */
  lemma {:induction false} UnescapeEscapeEach(s: string)
    ensures Unescape(EscapeEach(s)) == s
  {
    if s != [] {
      UnescapeStep(s[0], EscapeEach(s[1..]), EscapeEach(s));
      UnescapeEscapeEach(s[1..]);
      assert [s[0]] + s[1..] == s;
    }
  }

  /** `escapeHtml(str)` as written: five global replaces in a row, `&`
      first, and the empty string for an empty argument. */
  function EscapeHtml(s: string): string
  {
    if s == [] then []
    else
      var s1 := Text.ReplaceChar(s, '&', "&amp;");
      var s2 := Text.ReplaceChar(s1, '<', "&lt;");
      var s3 := Text.ReplaceChar(s2, '>', "&gt;");
      var s4 := Text.ReplaceChar(s3, '"', "&quot;");
      Text.ReplaceChar(s4, '\'', "&#039;")
  }

  /** Because `&` is replaced first, no entity is escaped twice: the chain
      of replaces is the same as escaping each character once. */
  lemma {:induction false} EscapeHtmlIsCharwise(s: string)
    ensures EscapeHtml(s) == EscapeEach(s)
  {
    if s != [] {
      EscapeChainConcat([s[0]], s[1..]);
      assert [s[0]] + s[1..] == s;
      EscapeChainChar(s[0]);
      EscapeHtmlIsCharwise(s[1..]);
      if s[1..] == [] {
        assert EscapeChain(s[1..]) == [];
      }
    }
  }

  /** The five replaces without the empty-string guard. */
  function EscapeChain(s: string): string
  {
    var s1 := Text.ReplaceChar(s, '&', "&amp;");
    var s2 := Text.ReplaceChar(s1, '<', "&lt;");
    var s3 := Text.ReplaceChar(s2, '>', "&gt;");
    var s4 := Text.ReplaceChar(s3, '"', "&quot;");
    Text.ReplaceChar(s4, '\'', "&#039;")
  }

  /** What `escapeHtml` writes into the page reads back as the original
      text. */
  lemma EscapeHtmlRoundTrip(s: string)
    ensures Unescape(EscapeHtml(s)) == s
  {
    EscapeHtmlIsCharwise(s);
    UnescapeEscapeEach(s);
  }

  lemma EscapeChainConcat(a: string, b: string)
    ensures EscapeChain(a + b) == EscapeChain(a) + EscapeChain(b)
  {
    var a1, b1 := Text.ReplaceChar(a, '&', "&amp;"), Text.ReplaceChar(b, '&', "&amp;");
    Text.ReplaceCharConcat(a, b, '&', "&amp;");
    var a2, b2 := Text.ReplaceChar(a1, '<', "&lt;"), Text.ReplaceChar(b1, '<', "&lt;");
    Text.ReplaceCharConcat(a1, b1, '<', "&lt;");
    var a3, b3 := Text.ReplaceChar(a2, '>', "&gt;"), Text.ReplaceChar(b2, '>', "&gt;");
    Text.ReplaceCharConcat(a2, b2, '>', "&gt;");
    var a4, b4 := Text.ReplaceChar(a3, '"', "&quot;"), Text.ReplaceChar(b3, '"', "&quot;");
    Text.ReplaceCharConcat(a3, b3, '"', "&quot;");
    Text.ReplaceCharConcat(a4, b4, '\'', "&#039;");
  }

  lemma EscapeChainChar(c: char)
    ensures EscapeChain([c]) == EscapeChar(c)
  {
    Text.ReplaceCharSingle(c, '&', "&amp;");
    var s1 := Text.ReplaceChar([c], '&', "&amp;");
    if c == '&' {
      assert '<' !in s1 && '>' !in s1 && '"' !in s1 && '\'' !in s1;
      return;
    }
    Text.ReplaceCharSingle(c, '<', "&lt;");
    var s2 := Text.ReplaceChar(s1, '<', "&lt;");
    if c == '<' {
      assert '>' !in s2 && '"' !in s2 && '\'' !in s2;
      return;
    }
    Text.ReplaceCharSingle(c, '>', "&gt;");
    var s3 := Text.ReplaceChar(s2, '>', "&gt;");
    if c == '>' {
      assert '"' !in s3 && '\'' !in s3;
      return;
    }
    Text.ReplaceCharSingle(c, '"', "&quot;");
    var s4 := Text.ReplaceChar(s3, '"', "&quot;");
    if c == '"' {
      assert '\'' !in s4;
      return;
    }
    Text.ReplaceCharSingle(c, '\'', "&#039;");
  }
}
