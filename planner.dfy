/** The planner page (the second page script of app.js): the in-memory item
    store with its id allocation, the submit handler with its semester bulk
    expansion, the list's filter and sort, the date badge and the CSV
    import parser. The clock is an input: `today` is the day number of the
    current local date and a weekday is given where the page asks `Date`
    for one. */
module Planner {
  import opened Common
  import Text
  import Sorting

  /** The free-text fields of an item; the form trims the description
      (`fullTitle`) and carries the others through unchanged. */
  datatype Details = Details(fullTitle: string, category: string, priority: string,
                             reminder: string, repeat: string)

  /** A planner item. Dates are day numbers and times minutes after
      midnight; `None` stands for a field that is empty. */
  datatype Item = Item(id: int, kind: Kind, title: string, details: Details,
                       startDate: Option<Day>, startTime: Option<int>,
                       endDate: Option<Day>, endTime: Option<int>,
                       mode: string, location: string, completed: bool)

  /** No two items share an id. */
  predicate UniqueIds(events: seq<Item>)
  {
    forall i, j :: 0 <= i < j < |events| ==> events[i].id != events[j].id
  }

  // =====================================================================
  // Id allocation (nextId)
  // =====================================================================

  /** `Math.max(0, ...events.map(e => e.id))`. */
  function MaxId(events: seq<Item>): (r: int)
    ensures r >= 0
  {
    if events == [] then 0
    else
      var m := MaxId(events[..|events| - 1]);
      var last := events[|events| - 1].id;
      if last > m then last else m
  }

  /** `nextId()`. */
  function NextId(events: seq<Item>): (r: int)
    ensures r >= 1
  {
    MaxId(events) + 1
  }

  /** The maximum bounds every id and is one of them unless it is 0. */
  lemma {:induction false} MaxIdIsMax(events: seq<Item>)
    ensures forall i :: 0 <= i < |events| ==> events[i].id <= MaxId(events)
    ensures MaxId(events) == 0 || exists i :: 0 <= i < |events| && events[i].id == MaxId(events)
  {
    if events != [] {
      var init := events[..|events| - 1];
      MaxIdIsMax(init);
      assert forall i :: 0 <= i < |init| ==> init[i] == events[i];
    }
  }

  /** The next id is above every id in use, and it is the least such
      number once some id is positive. */
  lemma NextIdIsFresh(events: seq<Item>)
    ensures forall i :: 0 <= i < |events| ==> events[i].id < NextId(events)
    ensures NextId(events) == 1 || exists i :: 0 <= i < |events| && events[i].id == NextId(events) - 1
  {
    MaxIdIsMax(events);
  }

  /** Appending an item under the next id keeps the ids distinct. */
  lemma AppendNextKeepsUnique(events: seq<Item>, payload: Item)
    requires UniqueIds(events)
    ensures UniqueIds(events + [payload.(id := NextId(events))])
  {
    NextIdIsFresh(events);
    var s := events + [payload.(id := NextId(events))];
    forall i, j | 0 <= i < j < |s|
      ensures s[i].id != s[j].id
    {
      assert s[i] == events[i];
    }
  }

  /** After appending an item under the next id, the next id is one more. */
  lemma NextIdAfterAppend(events: seq<Item>, x: Item)
    requires x.id == NextId(events)
    ensures NextId(events + [x]) == NextId(events) + 1
  {
    assert (events + [x])[..|events|] == events;
  }

  // =====================================================================
  // Edits of the store (updateItem, deleteItem, toggleComplete)
  // =====================================================================

  /** `{...events[idx], ...payload}` for the first item with the id: the
      payload has every field but `id`, so the merged item is the payload
      under the old id. */
  function Updated(events: seq<Item>, id: int, payload: Item): (r: seq<Item>)
    ensures |r| == |events|
    ensures forall j :: 0 <= j < |r| ==> r[j].id == events[j].id
    ensures match FindIndex(events, (e: Item) => e.id == id)
              case None => r == events
              case Some(k) => r[k] == payload.(id := id)
                              && forall j :: 0 <= j < |r| && j != k ==> r[j] == events[j]
  {
    match FindIndex(events, (e: Item) => e.id == id)
    case None => events
    case Some(k) => events[k := payload.(id := events[k].id)]
  }

  /** `events.filter(e => e.id !== id)`. */
  function WithoutItem(events: seq<Item>, id: int): (r: seq<Item>)
    ensures forall i :: 0 <= i < |r| ==> r[i].id != id && r[i] in events
    ensures forall i :: 0 <= i < |events| && events[i].id != id ==> events[i] in r
    ensures (forall i :: 0 <= i < |events| ==> events[i].id != id) ==> r == events
  {
    FilterKeepsAll(events, (e: Item) => e.id != id);
    Filter(events, (e: Item) => e.id != id)
  }

  /** Deleting by id keeps the remaining ids distinct. */
  lemma {:induction false} WithoutItemKeepsUnique(events: seq<Item>, id: int)
    requires UniqueIds(events)
    ensures UniqueIds(WithoutItem(events, id))
  {
    if events != [] {
      var rest := events[1..];
      UniqueTail(events);
      WithoutItemKeepsUnique(rest, id);
      var tail := WithoutItem(rest, id);
      forall k | 0 <= k < |tail|
        ensures tail[k].id != events[0].id
      {
        var m :| 0 <= m < |rest| && rest[m] == tail[k];
        assert rest[m] == events[m + 1];
      }
      WithoutItemCons(events, id);
      if events[0].id != id {
        ConsUnique(events[0], tail);
      }
    }
  }

  lemma UniqueTail(events: seq<Item>)
    requires events != [] && UniqueIds(events)
    ensures UniqueIds(events[1..])
  {
    var rest := events[1..];
    forall i, j | 0 <= i < j < |rest|
      ensures rest[i].id != rest[j].id
    {
      assert rest[i] == events[i + 1] && rest[j] == events[j + 1];
    }
  }

  lemma ConsUnique(x: Item, tail: seq<Item>)
    requires UniqueIds(tail)
    requires forall k :: 0 <= k < |tail| ==> tail[k].id != x.id
    ensures UniqueIds([x] + tail)
  {
    var s := [x] + tail;
    forall i, j | 0 <= i < j < |s|
      ensures s[i].id != s[j].id
    {
      assert s[j] == tail[j - 1];
      if i > 0 {
        assert s[i] == tail[i - 1];
      }
    }
  }

  /** `WithoutItem` one element at a time. */
  lemma WithoutItemCons(events: seq<Item>, id: int)
    requires events != []
    ensures WithoutItem(events, id)
         == (if events[0].id != id then [events[0]] else []) + WithoutItem(events[1..], id)
  {
  }

  /** `toggleComplete(id)`: flips `completed` of the first item with the id. */
  function ToggledItem(events: seq<Item>, id: int): (r: seq<Item>)
    ensures |r| == |events|
    ensures forall j :: 0 <= j < |r| ==> r[j].id == events[j].id
    ensures match FindIndex(events, (e: Item) => e.id == id)
              case None => r == events
              case Some(k) => r[k] == events[k].(completed := !events[k].completed)
                              && forall j :: 0 <= j < |r| && j != k ==> r[j] == events[j]
  {
    match FindIndex(events, (e: Item) => e.id == id)
    case None => events
    case Some(k) => events[k := events[k].(completed := !events[k].completed)]
  }

  /** An edit that keeps every id in place keeps the ids distinct. */
  lemma SameIdsKeepUnique(events: seq<Item>, r: seq<Item>)
    requires UniqueIds(events)
    requires |r| == |events| && forall j :: 0 <= j < |r| ==> r[j].id == events[j].id
    ensures UniqueIds(r)
  {
  }

  // =====================================================================
  // The submit handler's input
  // =====================================================================

  /** The values of the item form. `mode`, `f2fAddress` and `onlineLink`
      are the raw input values ("" where empty or absent). */
  datatype Form = Form(kind: Kind, title: string, details: Details,
                       startDate: Option<Day>, startTime: Option<int>,
                       endDate: Option<Day>, endTime: Option<int>,
                       mode: string, f2fAddress: string, onlineLink: string,
                       completed: bool)

  /** A face-to-face item is located at the address, any other at the link. */
  function LocationFor(mode: string, f2fAddress: string, onlineLink: string): string
  {
    if mode == "f2f" then f2fAddress else onlineLink
  }

  /** The details a saved item carries: the form's, with the description
      trimmed. */
  function SavedDetails(form: Form): Details
  {
    form.details.(fullTitle := Text.Trim(form.details.fullTitle))
  }

  /** The payload of a single save (its id is set by the store). */
  function SinglePayload(form: Form, title: string): Item
  {
    Item(0, form.kind, title, SavedDetails(form), form.startDate, form.startTime,
         form.endDate, form.endTime, if form.mode == "" then "online" else form.mode,
         LocationFor(form.mode, form.f2fAddress, form.onlineLink), form.completed)
  }

  /** The semester part of the form: the two dates (`None` when empty),
      the weekday of the start date, and the raw Monday..Friday selections
      of weeks A and B. */
  datatype Semester = Semester(start: Option<Day>, end: Option<Day>, startWeekday: Weekday,
                               weekA: seq<string>, weekB: seq<string>)

  predicate WellFormed(sem: Semester)
  {
    |sem.weekA| == 5 && |sem.weekB| == 5
  }

  /** What the handler reports. */
  datatype Outcome = TitleRequired | Saved | MissingDates | EndBeforeStart
                   | Created(count: nat, capped: bool)

  // =====================================================================
  // Semester expansion: the specification
  // =====================================================================

  /** The cap on the number of items one expansion creates. */
  const MAX_EVENTS: nat := 500

  /** A template's mode for a weekday (1 = Monday .. 5 = Friday); an empty
      selection reads as 'none'. */
  function TemplateMode(week: seq<string>, dow: int): string
    requires |week| == 5 && 1 <= dow <= 5
  {
    if week[dow - 1] == "" then "none" else week[dow - 1]
  }

  /** The weekday of the day `k` days after the start, counted forward a
      day at a time (`WeekdayAtIsMod` gives the closed form). */
  function WeekdayAt(sem: Semester, k: nat): Weekday
  {
    if k == 0 then sem.startWeekday
    else if WeekdayAt(sem, k - 1) == 6 then 0
    else WeekdayAt(sem, k - 1) + 1
  }

  /** `getDay()` of the date `k` days after the start. */
  lemma {:induction false} WeekdayAtIsMod(sem: Semester, k: nat)
    ensures WeekdayAt(sem, k) == (sem.startWeekday + k) % 7
  {
    if k > 0 {
      WeekdayAtIsMod(sem, k - 1);
      NextWeekday(sem.startWeekday + (k - 1), sem.startWeekday + k);
    }
  }

  /** Counting one day on moves the weekday on by one, from Saturday (6)
      back to Sunday (0). */
  lemma NextWeekday(a: nat, b: nat)
    requires b == a + 1
    ensures b % 7 == if a % 7 == 6 then 0 else a % 7 + 1
  {
    var q, r := a / 7, a % 7;
    assert a == 7 * q + r;
    if r == 6 {
      assert b == 7 * (q + 1);
    } else {
      assert b == 7 * q + (r + 1);
    }
  }

  /** Whether the day `k` days after the start lies in an even week counted
      from the start (`EvenWeekIsParity` gives the closed form). */
  function EvenWeek(k: nat): bool
  {
    if k < 7 then true else !EvenWeek(k - 7)
  }

  /** `Math.floor(k / 7) % 2 === 0`, the week parity test of the loop. */
  lemma {:induction false} EvenWeekIsParity(k: nat)
    ensures EvenWeek(k) == ((k / 7) % 2 == 0)
  {
    if k >= 7 {
      EvenWeekIsParity(k - 7);
      assert k / 7 == (k - 7) / 7 + 1;
    }
  }

  /** The template of the week `k` days after the start: week A in even
      weeks counted from the start, week B in odd ones. */
  function WeekAt(sem: Semester, k: nat): seq<string>
  {
    if EvenWeek(k) then sem.weekA else sem.weekB
  }

  /** One created item: a day and its mode. */
  datatype Slot = Slot(day: Day, mode: string)

  /** The mode of the day `k` days after the start: the template's entry
      for its weekday on Monday to Friday, and 'none' at the weekend. */
  function DayMode(sem: Semester, k: nat): string
    requires WellFormed(sem)
  {
    var dow := WeekdayAt(sem, k);
    if 1 <= dow <= 5 then TemplateMode(WeekAt(sem, k), dow) else "none"
  }

  /** The slot of the day `k` days after `start`, if that day gets an item. */
  function SlotAt(sem: Semester, start: Day, k: nat): seq<Slot>
    requires WellFormed(sem)
  {
    if DayMode(sem, k) != "none" then [Slot(start + k, DayMode(sem, k))] else []
  }

  /** The slots of the first `n` days from `start`, in day order. */
  function Plan(sem: Semester, start: Day, n: nat): seq<Slot>
    requires WellFormed(sem)
  {
    if n == 0 then [] else Plan(sem, start, n - 1) + SlotAt(sem, start, n - 1)
  }

  /** A slot on a weekday from Monday to Friday within the first `n` days,
      whose mode is the template's entry for that weekday in week A or B by
      the parity of its week, and never 'none'. */
  predicate GoodSlot(sem: Semester, start: Day, n: nat, s: Slot)
    requires WellFormed(sem)
  {
    var k := s.day - start;
    && 0 <= k < n
    && 1 <= WeekdayAt(sem, k) <= 5
    && s.mode == TemplateMode(WeekAt(sem, k), WeekdayAt(sem, k))
    && s.mode != "none"
  }

  /** Every planned slot is a good one, and there are at most `n`. */
  lemma {:induction false} PlanGood(sem: Semester, start: Day, n: nat)
    requires WellFormed(sem)
    ensures |Plan(sem, start, n)| <= n
    ensures forall i :: 0 <= i < |Plan(sem, start, n)| ==> GoodSlot(sem, start, n, Plan(sem, start, n)[i])
  {
    if n > 0 {
      PlanGood(sem, start, n - 1);
      var p := Plan(sem, start, n);
      var q := Plan(sem, start, n - 1);
      assert p == q + SlotAt(sem, start, n - 1);
      forall i | 0 <= i < |p|
        ensures GoodSlot(sem, start, n, p[i])
      {
        if i < |q| {
          assert p[i] == q[i];
          assert GoodSlot(sem, start, n - 1, q[i]);
        }
      }
    }
  }

  /** The slots are in strictly increasing day order: at most one per day. */
  lemma {:induction false} PlanOrdered(sem: Semester, start: Day, n: nat)
    requires WellFormed(sem)
    ensures forall i, j :: 0 <= i < j < |Plan(sem, start, n)| ==> Plan(sem, start, n)[i].day < Plan(sem, start, n)[j].day
  {
    if n > 0 {
      PlanOrdered(sem, start, n - 1);
      PlanGood(sem, start, n - 1);
      var p := Plan(sem, start, n);
      var q := Plan(sem, start, n - 1);
      assert p == q + SlotAt(sem, start, n - 1);
      forall i, j | 0 <= i < j < |p|
        ensures p[i].day < p[j].day
      {
        assert p[i] == q[i];
        assert GoodSlot(sem, start, n - 1, q[i]);
        if j < |q| {
          assert p[j] == q[j];
        }
      }
    }
  }

  /** Every day of the first `n` whose weekday entry is not 'none' gets its
      slot. */
  lemma {:induction false} PlanComplete(sem: Semester, start: Day, n: nat, k: nat)
    requires WellFormed(sem)
    requires k < n && 1 <= WeekdayAt(sem, k) <= 5
    requires TemplateMode(WeekAt(sem, k), WeekdayAt(sem, k)) != "none"
    ensures Slot(start + k, TemplateMode(WeekAt(sem, k), WeekdayAt(sem, k))) in Plan(sem, start, n)
  {
    var p := Plan(sem, start, n);
    var q := Plan(sem, start, n - 1);
    assert p == q + SlotAt(sem, start, n - 1);
    if k < n - 1 {
      PlanComplete(sem, start, n - 1, k);
    }
  }

  /** Planning fewer days gives a prefix of the plan. */
  lemma {:induction false} PlanPrefix(sem: Semester, start: Day, n: nat, m: nat)
    requires WellFormed(sem) && n <= m
    ensures |Plan(sem, start, n)| <= |Plan(sem, start, m)|
    ensures Plan(sem, start, m)[..|Plan(sem, start, n)|] == Plan(sem, start, n)
  {
    if n < m {
      PlanPrefix(sem, start, n, m - 1);
      var p := Plan(sem, start, m - 1);
      assert Plan(sem, start, m) == p + SlotAt(sem, start, m - 1);
      assert (p + SlotAt(sem, start, m - 1))[..|p|] == p;
    }
  }

  /** The item created for a slot under the given id. */
  function SlotItem(form: Form, title: string, s: Slot, id: int): Item
  {
    Item(id, form.kind, title, SavedDetails(form), Some(s.day), form.startTime,
         Some(s.day), form.endTime, s.mode, LocationFor(s.mode, form.f2fAddress, form.onlineLink),
         form.completed)
  }

  /** The items created for the slots, with consecutive ids from `firstId`. */
  function SlotItems(form: Form, title: string, slots: seq<Slot>, firstId: int): (r: seq<Item>)
    ensures |r| == |slots|
  {
    seq(|slots|, j requires 0 <= j < |slots| => SlotItem(form, title, slots[j], firstId + j))
  }

  lemma PlanNext(sem: Semester, start: Day, k: nat)
    requires WellFormed(sem)
    ensures Plan(sem, start, k + 1) == Plan(sem, start, k) + SlotAt(sem, start, k)
  {
  }

  /** Items for consecutive runs of slots take consecutive runs of ids. */
  lemma SlotItemsConcat(form: Form, title: string, a: seq<Slot>, b: seq<Slot>, firstId: int)
    ensures SlotItems(form, title, a + b, firstId)
         == SlotItems(form, title, a, firstId) + SlotItems(form, title, b, firstId + |a|)
  {
  }

  /** The items of a plan, appended under consecutive ids from the next
      id, move the next id past all of them. */
  lemma {:induction false} NextIdAfterSlots(before: seq<Item>, form: Form, title: string, plan: seq<Slot>)
    ensures NextId(before + SlotItems(form, title, plan, NextId(before))) == NextId(before) + |plan|
  {
    var firstId := NextId(before);
    if plan == [] {
      assert before + SlotItems(form, title, plan, firstId) == before;
    } else {
      var p := plan[..|plan| - 1];
      var s := plan[|plan| - 1];
      NextIdAfterSlots(before, form, title, p);
      assert plan == p + [s];
      SlotItemsConcat(form, title, p, [s], firstId);
      SlotItemsSingle(form, title, s, firstId + |p|);
      var mid := before + SlotItems(form, title, p, firstId);
      var item := SlotItem(form, title, s, firstId + |p|);
      AppendAssoc(before, SlotItems(form, title, p, firstId), [item]);
      NextIdAfterAppend(mid, item);
    }
  }

  lemma AppendAssoc<T>(a: seq<T>, b: seq<T>, c: seq<T>)
    ensures a + b + c == a + (b + c)
  {
  }

  /** The slots the cap keeps: the first `MAX_EVENTS` of the plan. */
  function Kept(plan: seq<Slot>): (r: seq<Slot>)
    ensures |r| == if |plan| < MAX_EVENTS then |plan| else MAX_EVENTS
  {
    if |plan| < MAX_EVENTS then plan else plan[..MAX_EVENTS]
  }

  /** The report of an expansion: how many items were created, and whether
      the plan reached the cap. */
  function CapOutcome(plan: seq<Slot>): Outcome
  {
    Created(|Kept(plan)|, |plan| >= MAX_EVENTS)
  }

  /** Where the bulk loop stops: either at the cap, once the first `n`
      days have produced `MAX_EVENTS` items, or after the last day with the
      whole plan under the cap. Both ends agree with `Expansion`. */
  lemma ExpansionClose(before: seq<Item>, form: Form, title: string, sem: Semester,
                       start: Day, end: Day, n: nat, created: nat, capped: bool,
                       outcome: Outcome, after: seq<Item>)
    requires WellFormed(sem) && sem.start == Some(start) && sem.end == Some(end)
    requires start <= end && n <= end - start + 1
    requires after == before + SlotItems(form, title, Plan(sem, start, n), NextId(before))
    requires created == |Plan(sem, start, n)|
    requires if capped then created == MAX_EVENTS else n == end - start + 1 && created < MAX_EVENTS
    requires outcome == Created(created, capped)
    ensures Expansion(before, form, title, sem, outcome, after)
  {
    var days := end - start + 1;
    if capped {
      CappedPlan(sem, start, n, days);
    }
    assert Kept(Plan(sem, start, days)) == Plan(sem, start, n);
  }

  /** Once the first `n` days fill the cap, the cap keeps exactly their
      slots of any longer plan. */
  lemma CappedPlan(sem: Semester, start: Day, n: nat, days: nat)
    requires WellFormed(sem) && n <= days && |Plan(sem, start, n)| == MAX_EVENTS
    ensures Kept(Plan(sem, start, days)) == Plan(sem, start, n)
    ensures CapOutcome(Plan(sem, start, days)) == Created(MAX_EVENTS, true)
  {
    PlanPrefix(sem, start, n, days);
  }

  // =====================================================================
  // Filtering and sorting the list (renderPlanner)
  // =====================================================================

  /** The item predicate of a filter name, as the page's chain of tests
      reads it; a name it does not know keeps every item. */
  predicate Keeps(filter: string, i: Item, today: Day)
  {
    var missed := !i.completed && i.startDate.Some? && i.startDate.value < today;
    if filter == "all" then true
    else if filter == "all-tasks" then i.kind == Task
    else if filter == "all-events" then i.kind == Event
    else if filter == "current" then !i.completed
    else if filter == "current-tasks" then !i.completed && i.kind == Task
    else if filter == "current-events" then !i.completed && i.kind == Event
    else if filter == "missed" then missed
    else if filter == "missed-tasks" then missed && i.kind == Task
    else if filter == "missed-events" then missed && i.kind == Event
    else if filter == "completed" then i.completed
    else if filter == "completed-tasks" then i.completed && i.kind == Task
    else if filter == "completed-events" then i.completed && i.kind == Event
    else true
  }

  /** The reference reading of the filter names: a status and a scope. */
  datatype Status = AnyStatus | Current | Missed | Completed
  datatype Scope = Both | TasksOnly | EventsOnly

  function StatusName(st: Status): string
  {
    match st
    case AnyStatus => "all"
    case Current => "current"
    case Missed => "missed"
    case Completed => "completed"
  }

  function ScopeSuffix(sc: Scope): string
  {
    match sc
    case Both => ""
    case TasksOnly => "-tasks"
    case EventsOnly => "-events"
  }

  predicate StatusOk(st: Status, i: Item, today: Day)
  {
    match st
    case AnyStatus => true
    case Current => !i.completed
    case Missed => !i.completed && i.startDate.Some? && i.startDate.value < today
    case Completed => i.completed
  }

  predicate ScopeOk(sc: Scope, i: Item)
  {
    match sc
    case Both => true
    case TasksOnly => i.kind == Task
    case EventsOnly => i.kind == Event
  }

  /** The filter name of a status and a scope. */
  function FilterName(st: Status, sc: Scope): string
  {
    match (st, sc)
    case (AnyStatus, Both) => "all"
    case (AnyStatus, TasksOnly) => "all-tasks"
    case (AnyStatus, EventsOnly) => "all-events"
    case (Current, Both) => "current"
    case (Current, TasksOnly) => "current-tasks"
    case (Current, EventsOnly) => "current-events"
    case (Missed, Both) => "missed"
    case (Missed, TasksOnly) => "missed-tasks"
    case (Missed, EventsOnly) => "missed-events"
    case (Completed, Both) => "completed"
    case (Completed, TasksOnly) => "completed-tasks"
    case (Completed, EventsOnly) => "completed-events"
  }

  /** The twelve filter names are the status names with an optional scope
      suffix. */
  lemma FilterNameParts(st: Status, sc: Scope)
    ensures FilterName(st, sc) == StatusName(st) + ScopeSuffix(sc)
  {
    match (st, sc)
    case (AnyStatus, Both) => assert "all" + "" == "all";
    case (AnyStatus, TasksOnly) => assert "all" + "-tasks" == "all-tasks";
    case (AnyStatus, EventsOnly) => assert "all" + "-events" == "all-events";
    case (Current, Both) => assert "current" + "" == "current";
    case (Current, TasksOnly) => assert "current" + "-tasks" == "current-tasks";
    case (Current, EventsOnly) => assert "current" + "-events" == "current-events";
    case (Missed, Both) => assert "missed" + "" == "missed";
    case (Missed, TasksOnly) => assert "missed" + "-tasks" == "missed-tasks";
    case (Missed, EventsOnly) => assert "missed" + "-events" == "missed-events";
    case (Completed, Both) => assert "completed" + "" == "completed";
    case (Completed, TasksOnly) => assert "completed" + "-tasks" == "completed-tasks";
    case (Completed, EventsOnly) => assert "completed" + "-events" == "completed-events";
  }

  /** Each filter name keeps exactly the items of its status and scope. */
  lemma KeepsIsStatusAndScope(st: Status, sc: Scope, i: Item, today: Day)
    ensures Keeps(FilterName(st, sc), i, today) <==> StatusOk(st, i, today) && ScopeOk(sc, i)
  {
  }

  /** Any other name keeps every item. */
  lemma KeepsUnknown(filter: string, i: Item, today: Day)
    requires forall st: Status, sc: Scope :: filter != FilterName(st, sc)
    ensures Keeps(filter, i, today)
  {
    assert filter != FilterName(AnyStatus, Both);
    assert filter != FilterName(AnyStatus, TasksOnly);
    assert filter != FilterName(AnyStatus, EventsOnly);
    assert filter != FilterName(Current, Both);
    assert filter != FilterName(Current, TasksOnly);
    assert filter != FilterName(Current, EventsOnly);
    assert filter != FilterName(Missed, Both);
    assert filter != FilterName(Missed, TasksOnly);
    assert filter != FilterName(Missed, EventsOnly);
    assert filter != FilterName(Completed, Both);
    assert filter != FilterName(Completed, TasksOnly);
    assert filter != FilterName(Completed, EventsOnly);
  }

  /** The items the selected filter keeps, in store order. */
  function FilterItems(events: seq<Item>, filter: string, today: Day): (r: seq<Item>)
    ensures forall i :: 0 <= i < |r| ==> r[i] in events && Keeps(filter, r[i], today)
    ensures forall i :: 0 <= i < |events| && Keeps(filter, events[i], today) ==> events[i] in r
  {
    Filter(events, (i: Item) => Keeps(filter, i, today))
  }

  /** The time an item sorts by, in minutes: its start date (1970-01-01
      when empty) at its start time (00:00 when empty). */
  function SortKey(i: Item): int
  {
    (if i.startDate.Some? then i.startDate.value else 0) * 1440
      + (if i.startTime.Some? then i.startTime.value else 0)
  }

  /** The comparator as an order: open items before completed ones, then
      by sort key. */
  predicate ComesFirst(a: Item, b: Item)
  {
    if a.completed != b.completed then !a.completed else SortKey(a) <= SortKey(b)
  }

  lemma ComesFirstIsPreorder()
    ensures Sorting.Total(ComesFirst) && Sorting.Transitive(ComesFirst)
  {
  }

  /** `items.sort(...)`: the same items, open ones before completed ones,
      and by start date and time within each group. */
  function SortItems(items: seq<Item>): (r: seq<Item>)
    ensures multiset(r) == multiset(items)
    ensures forall i, j :: 0 <= i < j < |r| ==> !r[i].completed || r[j].completed
    ensures forall i, j :: 0 <= i < j < |r| && r[i].completed == r[j].completed ==> SortKey(r[i]) <= SortKey(r[j])
  {
    ComesFirstIsPreorder();
    var r := Sorting.SortBy(items, ComesFirst);
    assert forall i, j :: 0 <= i < j < |r| ==> ComesFirst(r[i], r[j]);
    r
  }

  /** The kept items, sorted: the list that `renderPlanner` then groups
      by month before it renders it. */
  function PlannerView(events: seq<Item>, filter: string, today: Day): (r: seq<Item>)
    ensures multiset(r) == multiset(FilterItems(events, filter, today))
    ensures forall i :: 0 <= i < |r| ==> Keeps(filter, r[i], today) && r[i] in events
    ensures forall i, j :: 0 <= i < j < |r| ==> !r[i].completed || r[j].completed
    ensures forall i, j :: 0 <= i < j < |r| && r[i].completed == r[j].completed ==> SortKey(r[i]) <= SortKey(r[j])
  {
    var kept := FilterItems(events, filter, today);
    var r := SortItems(kept);
    assert forall i :: 0 <= i < |r| ==> r[i] in multiset(kept);
    r
  }

  // =====================================================================
  // Date badges (getBadgeForEvent, daysUntil)
  // =====================================================================

  datatype Badge = EndsSoon | Today | Tomorrow | DayName(weekday: Weekday) | DateLabel

  /** `getBadgeForEvent(e)`; `weekday` is the weekday of the start date.
      `daysUntil` is the start date minus today, and NaN for an empty date,
      which fails every comparison and so yields the date label. */
  function BadgeFor(e: Item, today: Day, weekday: Weekday): (r: Badge)
    ensures r == EndsSoon <==> e.kind == Event && e.startDate.Some? && -1 <= e.startDate.value - today <= 0
    ensures r == Today <==> e.kind == Task && e.startDate.Some? && e.startDate.value == today
    ensures r == Tomorrow <==> e.startDate.Some? && e.startDate.value == today + 1
    ensures r.DayName? <==> e.startDate.Some? && 2 <= e.startDate.value - today <= 7
    ensures r.DayName? ==> r.weekday == weekday
    ensures r == DateLabel <==>
              e.startDate.None? || e.startDate.value - today < -1 || e.startDate.value - today > 7
              || (e.kind == Task && e.startDate.value - today == -1)
  {
    if e.startDate.None? then DateLabel
    else
      var diff := e.startDate.value - today;
      if e.kind == Event && diff <= 0 && diff >= -1 then EndsSoon
      else if diff == 0 then assert e.kind == Task; Today
      else if diff == 1 then Tomorrow
      else if diff > 1 && diff <= 7 then DayName(weekday)
      else assert diff == -1 ==> e.kind == Task; DateLabel
  }

  // =====================================================================
  // parseCSV
  // =====================================================================

  /** `values[idx] || ''`. */
  function Cell(values: seq<string>, idx: nat): string
  {
    if idx < |values| then values[idx] else ""
  }

  /** The distinct strings of a sequence. */
  function Elems(s: seq<string>): set<string>
  {
    set h | h in s
  }

  /** The object built for one data line: `obj[header] = cell` for each
      header in order. */
  function RecordOf(headers: seq<string>, values: seq<string>): map<string, string>
  {
    if headers == [] then map[]
    else
      var n := |headers| - 1;
      RecordOf(headers[..n], values)[headers[n] := Cell(values, n)]
  }

  lemma ElemsSnoc(s: seq<string>, x: string)
    ensures Elems(s + [x]) == Elems(s) + {x}
  {
  }

  /** A record has exactly the header keys. */
  lemma {:induction false} RecordOfKeys(headers: seq<string>, values: seq<string>)
    ensures RecordOf(headers, values).Keys == Elems(headers)
  {
    if headers != [] {
      var n := |headers| - 1;
      RecordOfKeys(headers[..n], values);
      assert headers == headers[..n] + [headers[n]];
      ElemsSnoc(headers[..n], headers[n]);
    }
  }

  /** A header's value is the cell under its last occurrence, and `''`
      past the end of the line. */
  lemma {:induction false} RecordOfAt(headers: seq<string>, values: seq<string>, idx: nat)
    requires idx < |headers|
    requires forall j :: idx < j < |headers| ==> headers[j] != headers[idx]
    ensures headers[idx] in RecordOf(headers, values)
    ensures RecordOf(headers, values)[headers[idx]] == Cell(values, idx)
  {
    var n := |headers| - 1;
    if idx < n {
      var init := headers[..n];
      assert init[idx] == headers[idx];
      assert forall j :: idx < j < n ==> init[j] == headers[j];
      RecordOfAt(init, values, idx);
    }
  }

  /** Both halves together: the keys, and the value under each key. */
  lemma RecordOfShape(headers: seq<string>, values: seq<string>)
    ensures RecordOf(headers, values).Keys == Elems(headers)
    ensures forall idx :: 0 <= idx < |headers| && (forall j :: idx < j < |headers| ==> headers[j] != headers[idx]) ==>
              RecordOf(headers, values)[headers[idx]] == Cell(values, idx)
  {
    RecordOfKeys(headers, values);
    forall idx | 0 <= idx < |headers| && (forall j :: idx < j < |headers| ==> headers[j] != headers[idx])
      ensures RecordOf(headers, values)[headers[idx]] == Cell(values, idx)
    {
      RecordOfAt(headers, values, idx);
    }
  }

  /** The cells of a line: split at commas and trimmed. */
  function Cells(line: string): seq<string>
  {
    Text.TrimAll(Text.Split(line, ','))
  }

  /** The lines of an import: the text trimmed and split at newlines. */
  function CsvLines(text: string): seq<string>
  {
    Text.Split(Text.Trim(text), '\n')
  }

  /** The records of the data lines `rows`, keyed by `headers`, in order. */
  function Records(headers: seq<string>, rows: seq<string>): (r: seq<map<string, string>>)
    ensures |r| == |rows|
  {
    if rows == [] then []
    else Records(headers, rows[..|rows| - 1]) + [RecordOf(headers, Cells(rows[|rows| - 1]))]
  }

  /** The records of the lines: none for fewer than two lines, otherwise
      one per data line, keyed by the cells of the header line. */
  function CsvRecords(lines: seq<string>): seq<map<string, string>>
  {
    if |lines| < 2 then [] else Records(Cells(lines[0]), lines[1..])
  }

  lemma SliceSnoc<T>(s: seq<T>, a: nat, b: nat)
    requires a <= b < |s|
    ensures s[a..b + 1] == s[a..b] + [s[b]]
  {
  }

  lemma SliceToEnd<T>(s: seq<T>, a: nat)
    requires a <= |s|
    ensures s[a..|s|] == s[a..]
  {
  }

  /** One more data line adds its record at the end. */
  lemma RecordsSnoc(headers: seq<string>, rows: seq<string>, line: string)
    ensures Records(headers, rows + [line]) == Records(headers, rows) + [RecordOf(headers, Cells(line))]
  {
    assert (rows + [line])[..|rows|] == rows;
  }

  /** Every record of `rows` is the record of its own line. */
  lemma {:induction false} RecordsAt(headers: seq<string>, rows: seq<string>, i: nat)
    requires i < |rows|
    ensures Records(headers, rows)[i] == RecordOf(headers, Cells(rows[i]))
  {
    var init := rows[..|rows| - 1];
    if i < |init| {
      RecordsAt(headers, init, i);
      assert init[i] == rows[i];
    }
  }

  /** Fewer than two lines give no records; otherwise there is one record
      per data line, built from that line, each with exactly the header
      keys. */
  lemma CsvRecordsShape(lines: seq<string>)
    ensures |lines| < 2 ==> CsvRecords(lines) == []
    ensures |lines| >= 2 ==> |CsvRecords(lines)| == |lines| - 1
    ensures forall i :: 0 <= i < |CsvRecords(lines)| ==>
              CsvRecords(lines)[i] == RecordOf(Cells(lines[0]), Cells(lines[i + 1]))
    ensures forall i :: 0 <= i < |CsvRecords(lines)| ==>
              CsvRecords(lines)[i].Keys == Elems(Cells(lines[0]))
  {
    if |lines| >= 2 {
      var headers := Cells(lines[0]);
      var r := CsvRecords(lines);
      forall i | 0 <= i < |r|
        ensures r[i] == RecordOf(headers, Cells(lines[i + 1]))
        ensures r[i].Keys == Elems(headers)
      {
        RecordsAt(headers, lines[1..], i);
        assert lines[1..][i] == lines[i + 1];
        RecordOfKeys(headers, Cells(lines[i + 1]));
      }
    }
  }

  /** A data line shorter than the header line gets `''` for the missing
      columns. */
  lemma CsvMissingCells(headers: seq<string>, values: seq<string>, idx: nat)
    requires |values| <= idx < |headers|
    requires forall j :: idx < j < |headers| ==> headers[j] != headers[idx]
    ensures headers[idx] in RecordOf(headers, values) && RecordOf(headers, values)[headers[idx]] == ""
  {
    RecordOfAt(headers, values, idx);
  }

  /** `parseCSV(csvText)`. */
  method ParseCSV(text: string) returns (data: seq<map<string, string>>)
    ensures data == CsvRecords(CsvLines(text))
  {
    var lines := CsvLines(text);
    if |lines| < 2 {
      return [];
    }
    var headers := Cells(lines[0]);
    data := [];
    var i := 1;
    while i < |lines|
      invariant 1 <= i <= |lines|
      invariant data == Records(headers, lines[1..i])
    {
      var obj := BuildRecord(headers, Cells(lines[i]));
      SliceSnoc(lines, 1, i);
      RecordsSnoc(headers, lines[1..i], lines[i]);
      data := data + [obj];
      i := i + 1;
    }
    SliceToEnd(lines, 1);
  }

  /** The inner loop of `parseCSV`: `obj[h] = values[idx] || ''` for each
      header in order. */
  method BuildRecord(headers: seq<string>, values: seq<string>) returns (obj: map<string, string>)
    ensures obj == RecordOf(headers, values)
  {
    obj := map[];
    var idx := 0;
    while idx < |headers|
      invariant 0 <= idx <= |headers|
      invariant obj == RecordOf(headers[..idx], values)
    {
      obj := obj[headers[idx] := Cell(values, idx)];
      idx := idx + 1;
      assert headers[..idx][..idx - 1] == headers[..idx - 1];
    }
    assert headers[..idx] == headers;
  }

  // =====================================================================
  // The store
  // =====================================================================

  class PlannerStore {
    /** The page's `events` array. */
    var events: seq<Item>

    constructor (initial: seq<Item>)
      ensures events == initial
    {
      events := initial;
    }

    /** `addItem(payload)`: gives the payload the next id and appends it. */
    method AddItem(payload: Item) returns (added: Item)
      modifies this
      ensures added == payload.(id := NextId(old(events)))
      ensures events == old(events) + [added]
      ensures UniqueIds(old(events)) ==> UniqueIds(events)
    {
      added := payload.(id := NextId(events));
      if UniqueIds(events) {
        AppendNextKeepsUnique(events, payload);
      }
      events := events + [added];
    }

    /** `updateItem(id, payload)`: merges the payload into the first item
        with the id; an unknown id changes nothing. */
    method UpdateItem(id: int, payload: Item)
      modifies this
      ensures events == Updated(old(events), id, payload)
      ensures UniqueIds(old(events)) ==> UniqueIds(events)
    {
      var idx := FindIndex(events, (e: Item) => e.id == id);
      if idx.Some? {
        events := events[idx.value := payload.(id := events[idx.value].id)];
      }
      if UniqueIds(old(events)) {
        SameIdsKeepUnique(old(events), events);
      }
    }

    /** `deleteItem(id)`: removes every item with the id. */
    method DeleteItem(id: int)
      modifies this
      ensures events == WithoutItem(old(events), id)
      ensures UniqueIds(old(events)) ==> UniqueIds(events)
    {
      if UniqueIds(events) {
        WithoutItemKeepsUnique(events, id);
      }
      events := Filter(events, (e: Item) => e.id != id);
    }

    /** `toggleComplete(id)`. */
    method ToggleComplete(id: int)
      modifies this
      ensures events == ToggledItem(old(events), id)
      ensures UniqueIds(old(events)) ==> UniqueIds(events)
    {
      var idx := FindIndex(events, (e: Item) => e.id == id);
      if idx.Some? {
        var e := events[idx.value];
        events := events[idx.value := e.(completed := !e.completed)];
      }
      if UniqueIds(old(events)) {
        SameIdsKeepUnique(old(events), events);
      }
    }

    /** The submit handler of the item form. `editingId` is the id being
        edited, if any; `bulk` is the semester part when the bulk toggle is
        on. */
    method Submit(form: Form, editingId: Option<int>, bulk: Option<Semester>) returns (outcome: Outcome)
      requires bulk.Some? ==> WellFormed(bulk.value)
      modifies this
      ensures Text.Trim(form.title) == [] ==> outcome == TitleRequired && events == old(events)
      ensures Text.Trim(form.title) != [] && bulk.None? ==>
                var p := SinglePayload(form, Text.Trim(form.title));
                && outcome == Saved
                && events == if editingId.Some? && editingId.value != 0
                             then Updated(old(events), editingId.value, p)
                             else old(events) + [p.(id := NextId(old(events)))]
      ensures Text.Trim(form.title) != [] && bulk.Some? ==>
                Expansion(old(events), form, Text.Trim(form.title), bulk.value, outcome, events)
    {
      var title := Text.Trim(form.title);
      if title == [] {
        return TitleRequired;
      }
      if bulk.None? {
        var payload := SinglePayload(form, title);
        if editingId.Some? && editingId.value != 0 {
          UpdateItem(editingId.value, payload);
        } else {
          var _ := AddItem(payload);
        }
        return Saved;
      }
      outcome := ExpandSemester(form, title, bulk.value);
    }

    /** The bulk branch of the submit handler: one item per planned slot
        from the semester start to its end, at most `MAX_EVENTS`. */
    method ExpandSemester(form: Form, title: string, sem: Semester) returns (outcome: Outcome)
      requires WellFormed(sem)
      modifies this
      ensures Expansion(old(events), form, title, sem, outcome, events)
    {
      if sem.start.None? || sem.end.None? {
        return MissingDates;
      }
      var start, end := sem.start.value, sem.end.value;
      if end < start {
        return EndBeforeStart;
      }
      ghost var before := events;
      var created, capped, n := ExpandDays(form, title, sem, start, end);
      outcome := Created(created, capped);
      ExpansionClose(before, form, title, sem, start, end, n, created, capped, outcome, events);
    }

    /** The loop of the bulk branch, from the start date to the end date:
        it stops after `n` days, either at the cap or past the end date,
        and the store has gained the items of the plan of those days. */
    method ExpandDays(form: Form, title: string, sem: Semester, start: Day, end: Day)
      returns (created: nat, capped: bool, ghost n: nat)
      requires WellFormed(sem) && start <= end
      modifies this
      ensures n <= end - start + 1 && created == |Plan(sem, start, n)|
      ensures if capped then created == MAX_EVENTS else n == end - start + 1 && created < MAX_EVENTS
      ensures events == old(events) + SlotItems(form, title, Plan(sem, start, n), NextId(old(events)))
    {
      ghost var before := events;
      ghost var firstId := NextId(events);
      ghost var plan: seq<Slot> := [];
      ghost var k: nat := 0;
      created := 0;
      var cur := start;
      while cur <= end
        invariant start <= cur <= end + 1 && k == cur - start
        invariant plan == Plan(sem, start, k)
        invariant created == |plan| < MAX_EVENTS
        invariant events == before + SlotItems(form, title, plan, firstId)
      {
        var isNew;
        isNew, plan := AddDay(form, title, sem, start, cur, before, firstId, k, plan);
        k := k + 1;
        if isNew {
          created := created + 1;
          if created >= MAX_EVENTS {
            break;
          }
        }
        cur := cur + 1;
      }
      capped := created >= MAX_EVENTS;
      n := k;
    }

    /** One pass of the bulk loop, on the day `k` days after the start: the
        day gets an item under the next id exactly when the plan has a slot
        for it, and the items so far stay those of the plan so far. */
    method AddDay(form: Form, title: string, sem: Semester, start: Day, cur: Day,
                  ghost before: seq<Item>, ghost firstId: int, ghost k: nat, ghost plan: seq<Slot>)
      returns (isNew: bool, ghost plan': seq<Slot>)
      requires WellFormed(sem) && k == cur - start
      requires plan == Plan(sem, start, k)
      requires events == before + SlotItems(form, title, plan, firstId)
      requires firstId == NextId(before)
      modifies this
      ensures plan' == Plan(sem, start, k + 1)
      ensures |plan'| == |plan| + (if isNew then 1 else 0)
      ensures events == before + SlotItems(form, title, plan', firstId)
    {
      var modeForDay := DayMode(sem, cur - start);
      if modeForDay != "none" {
        ghost var mid := events;
        var _ := AddItem(SlotItem(form, title, Slot(cur, modeForDay), 0));
        DayAdded(before, form, title, sem, start, cur, firstId, k, plan, mid, events);
        plan' := plan + [Slot(cur, modeForDay)];
        isNew := true;
      } else {
        DaySkipped(sem, start, k, cur);
        plan' := plan;
        isNew := false;
      }
    }
  }

  /** A day with a mode: `addItem` appends its slot's item under the next
      id, which is the id after those of the plan so far. */
  lemma DayAdded(before: seq<Item>, form: Form, title: string, sem: Semester, start: Day, cur: Day,
                 firstId: int, k: nat, plan: seq<Slot>, mid: seq<Item>, after: seq<Item>)
    requires WellFormed(sem) && k == cur - start && DayMode(sem, k) != "none"
    requires plan == Plan(sem, start, k)
    requires mid == before + SlotItems(form, title, plan, firstId)
    requires firstId == NextId(before)
    requires after == mid + [SlotItem(form, title, Slot(cur, DayMode(sem, k)), 0).(id := NextId(mid))]
    ensures Plan(sem, start, k + 1) == plan + [Slot(cur, DayMode(sem, k))]
    ensures after == before + SlotItems(form, title, Plan(sem, start, k + 1), firstId)
  {
    NextIdAfterSlots(before, form, title, plan);
    PlanNext(sem, start, k);
    SlotAtDay(sem, start, k, cur);
    var slot := Slot(cur, DayMode(sem, k));
    SlotItemsSingle(form, title, slot, firstId + |plan|);
    SlotItemWithId(form, title, slot, NextId(mid));
    NextIdAfterAppend(mid, SlotItem(form, title, slot, NextId(mid)));
    Advance(before, form, title, plan, [slot], firstId, mid, after);
  }

  /** A day without a mode adds nothing to the plan. */
  lemma DaySkipped(sem: Semester, start: Day, k: nat, cur: Day)
    requires WellFormed(sem) && k == cur - start && DayMode(sem, k) == "none"
    ensures Plan(sem, start, k + 1) == Plan(sem, start, k)
  {
    PlanNext(sem, start, k);
    assert Plan(sem, start, k) + [] == Plan(sem, start, k);
  }

  /** The slot of the day `cur`, `k` days after the start. */
  lemma SlotAtDay(sem: Semester, start: Day, k: nat, cur: Day)
    requires WellFormed(sem) && k == cur - start
    ensures SlotAt(sem, start, k) == if DayMode(sem, k) != "none" then [Slot(cur, DayMode(sem, k))] else []
  {
  }

  lemma SlotItemsSingle(form: Form, title: string, s: Slot, id: int)
    ensures SlotItems(form, title, [s], id) == [SlotItem(form, title, s, id)]
  {
  }

  /** The payload built with a placeholder id becomes the slot's item once
      `addItem` gives it its id. */
  lemma SlotItemWithId(form: Form, title: string, s: Slot, id: int)
    ensures SlotItem(form, title, s, 0).(id := id) == SlotItem(form, title, s, id)
  {
  }

  /** The bookkeeping of one pass of the bulk loop: the items of the next
      day's slots follow those of the days before. */
  lemma Advance(before: seq<Item>, form: Form, title: string, plan: seq<Slot>, slots: seq<Slot>,
                firstId: int, mid: seq<Item>, after: seq<Item>)
    requires mid == before + SlotItems(form, title, plan, firstId)
    requires after == mid + SlotItems(form, title, slots, firstId + |plan|)
    ensures after == before + SlotItems(form, title, plan + slots, firstId)
  {
    SlotItemsConcat(form, title, plan, slots, firstId);
  }

  /** The result of the bulk branch on the store `before`: the date checks
      come first and change nothing; otherwise the semester's days are
      expanded. */
  ghost predicate Expansion(before: seq<Item>, form: Form, title: string, sem: Semester,
                            outcome: Outcome, after: seq<Item>)
    requires WellFormed(sem)
  {
    if sem.start.None? || sem.end.None? then outcome == MissingDates && after == before
    else if sem.end.value < sem.start.value then outcome == EndBeforeStart && after == before
    else Expanded(before, form, title, sem, sem.start.value, sem.end.value - sem.start.value + 1, outcome, after)
  }

  /** Expanding `days` days from `start`: the store gains the items of the
      slots the cap keeps, with consecutive ids from the next id. */
  ghost predicate Expanded(before: seq<Item>, form: Form, title: string, sem: Semester,
                           start: Day, days: nat, outcome: Outcome, after: seq<Item>)
    requires WellFormed(sem)
  {
    && outcome == CapOutcome(Plan(sem, start, days))
    && after == before + SlotItems(form, title, Kept(Plan(sem, start, days)), NextId(before))
  }
}
