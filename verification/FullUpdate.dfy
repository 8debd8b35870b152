/** The full event update: one request planned against the stored event, the
    plan written, and the same request planned again. */
module FullUpdate {
  import opened Prelude
  import opened Text
  import opened ListPlan
  import opened ListApply
  import opened DayRelabel
  import opened FullUpdateRules

  datatype Program = Program(title: Option<string>, isPublished: bool, isArchived: bool, items: Table<Item>)

  datatype Hub = Hub(opensAt: Option<Time>, isArchived: bool)

  datatype StoredEvent = StoredEvent(
    event: EventRow, days: Days, tickets: Table<Ticket>, rsvpFields: Table<RsvpField>, program: Option<Program>,
    hub: Option<Hub>)

  /** The live ids of each list, in the order it was loaded. */
  datatype Loaded = Loaded(days: seq<Id>, tickets: seq<Id>, rsvpFields: seq<Id>, items: seq<Id>)

  /** Ids the database makes up for new rows. */
  datatype NewIds = NewIds(days: seq<Id>, tickets: seq<Id>, rsvpFields: seq<Id>, items: seq<Id>)

  datatype ProgramRequest = ProgramRequest(
    title: Field<Option<string>>, isPublished: Field<bool>, items: Option<seq<Row<ItemFields>>>)

  datatype Request = Request(
    event: Option<EventFields>, days: Option<seq<Row<DayFields>>>, tickets: Option<seq<Row<TicketFields>>>,
    rsvpFields: Option<seq<Row<RsvpFieldFields>>>, program: Option<ProgramRequest>, opensAt: Field<Option<Time>>)

  datatype ProgramPlan = ProgramPlan(
    create: Option<(Option<string>, bool)>, update: Option<(Field<Option<string>>, Field<bool>)>, items: Plan<Item>)

  datatype FullPlan = FullPlan(
    event: Option<EventFields>, days: Plan<Day>, tickets: Plan<Ticket>, rsvpFields: Plan<RsvpField>,
    program: Option<ProgramPlan>, hub: Option<Option<Time>>)

  /** What planning depends on besides the event: today's date, label case, and which texts are lists of choices. */
  datatype Env = Env(today: int, fold: string -> string, isList: string -> bool)

  function Nothing<V>(): Plan<V> {
    Plan([], [], [])
  }

  function HasChanges(plan: FullPlan): bool {
    || plan.event.Some?
    || |plan.days.creates| + |plan.days.updates| + |plan.days.archives| > 0
    || |plan.tickets.creates| + |plan.tickets.updates| + |plan.tickets.archives| > 0
    || |plan.rsvpFields.creates| + |plan.rsvpFields.updates| + |plan.rsvpFields.archives| > 0
    || (plan.program.Some?
        && (plan.program.value.create.Some? || plan.program.value.update.Some?
            || |plan.program.value.items.creates| + |plan.program.value.items.updates|
                + |plan.program.value.items.archives| > 0))
    || plan.hub.Some?
  }

  // ── Planning ──

  /** A list left out of the request is left alone. */
  ghost predicate IsListPlan<F, V, E>(
    rules: Rules<F, V, E>, table: Table<V>, live: seq<Id>, rows: Option<seq<Row<F>>>, plan: Plan<V>)
  {
    if rows.None? then plan == Nothing() else Named(table, rows.value) && IsPlan(rules, table, live, rows.value, plan)
  }

  /** Labels that differ only in case, or in blanks around them, are the same. */
  function NormalLabel(fold: string -> string, dayLabel: Label): string {
    fold(Trim(dayLabel))
  }

  ghost predicate RepeatedAt(fold: string -> string, labels: seq<Label>, n: nat)
    requires n < |labels|
  {
    exists m :: 0 <= m < n && NormalLabel(fold, labels[m]) == NormalLabel(fold, labels[n])
  }

  method FindDuplicateDayLabel(fold: string -> string, labels: seq<Label>) returns (duplicate: Option<Label>)
    ensures duplicate.None? <==> forall n :: 0 <= n < |labels| ==> !RepeatedAt(fold, labels, n)
    ensures duplicate.Some? ==>
              exists n :: 0 <= n < |labels| && duplicate.value == labels[n] && RepeatedAt(fold, labels, n)
                && (forall m :: 0 <= m < n ==> !RepeatedAt(fold, labels, m))
  {
    var seen: set<string> := {};
    for n := 0 to |labels|
      invariant forall s :: s in seen <==> exists m :: 0 <= m < n && NormalLabel(fold, labels[m]) == s
      invariant forall m :: 0 <= m < n ==> !RepeatedAt(fold, labels, m)
    {
      var normalized := NormalLabel(fold, labels[n]);
      if normalized in seen {
        assert RepeatedAt(fold, labels, n);
        return Some(labels[n]);
      }
      seen := seen + {normalized};
    }
    return None;
  }

  /** The label position n of the request's days has once saved, for comparing. */
  ghost function LabelAt(env: Env, days: Days, rows: seq<Row<DayFields>>, n: nat): string
    requires n < |rows| && Named(days, rows) && Wanted(DayRules(env.today), days, rows, n).Ok?
  {
    NormalLabel(env.fold, Wanted(DayRules(env.today), days, rows, n).value.dayLabel)
  }

  /** No two of the request's days have the same label. */
  ghost predicate LabelsDistinct(env: Env, days: Days, rows: seq<Row<DayFields>>)
    requires Named(days, rows)
  {
    forall m, n ::
      && 0 <= m < n < |rows|
      && Wanted(DayRules(env.today), days, rows, m).Ok?
      && Wanted(DayRules(env.today), days, rows, n).Ok? ==>
        LabelAt(env, days, rows, m) != LabelAt(env, days, rows, n)
  }

  ghost function DayAfter(env: Env, days: Days, rows: seq<Row<DayFields>>, n: nat): ResultingDay
    requires n < |rows| && Named(days, rows) && Wanted(DayRules(env.today), days, rows, n).Ok?
  {
    var date := Wanted(DayRules(env.today), days, rows, n).value.date;
    if rows[n].id.Some? then
      ResultingDay(SavedDay(rows[n].id.value), date, date != days[rows[n].id.value].value.date)
    else ResultingDay(CreatedDay(NewRows(rows, n)), date, true)
  }

  /** `resulting` is the event's days as they will be after this save. */
  ghost predicate AreResultingDays(env: Env, days: Days, live: seq<Id>, rows: Option<seq<Row<DayFields>>>,
      resulting: seq<ResultingDay>) {
    if rows.None? then
      && |resulting| == |live|
      && (forall n :: 0 <= n < |live| ==>
            live[n] in days && resulting[n] == ResultingDay(SavedDay(live[n]), days[live[n]].value.date, false))
    else
      && Named(days, rows.value) && |resulting| == |rows.value|
      && (forall n :: 0 <= n < |resulting| ==>
            Wanted(DayRules(env.today), days, rows.value, n).Ok? && resulting[n] == DayAfter(env, days, rows.value, n))
  }

  function LiveProgram(stored: StoredEvent): Option<Program> {
    if stored.program.Some? && !stored.program.value.isArchived then stored.program else None
  }

  function StoredItems(stored: StoredEvent): Table<Item> {
    if LiveProgram(stored).Some? then LiveProgram(stored).value.items else map[]
  }

  ghost predicate IsProgramPlan(
    stored: StoredEvent, live: seq<Id>, days: seq<ResultingDay>, request: Option<ProgramRequest>,
    plan: Option<ProgramPlan>)
  {
    if request.None? then plan.None?
    else
      var program := LiveProgram(stored);
      && plan.Some?
      && (stored.program.Some? && stored.program.value.isArchived && request.value.items.Some? ==>
          request.value.items.value == [])
      && IsListPlan(ItemRules(days), StoredItems(stored), live, request.value.items, plan.value.items)
      && plan.value.create ==
         (if program.None? && plan.value.items.creates != []
          then Some((Else(request.value.title, None), Else(request.value.isPublished, true)))
          else None)
      && plan.value.update ==
         (if program.Some? && (Else(request.value.title, program.value.title) != program.value.title
                               || Else(request.value.isPublished,
                                       program.value.isPublished) != program.value.isPublished)
          then Some((request.value.title, request.value.isPublished)) else None)
  }

  ghost predicate IsHubPlan(hub: Option<Hub>, opensAt: Field<Option<Time>>, plan: Option<Option<Time>>) {
    if opensAt.Absent? then plan.None?
    else
      && (hub.Some? ==> !hub.value.isArchived)
      && plan == if hub.Some? && hub.value.opensAt == opensAt.value then None else Some(opensAt.value)
  }

  /** `plan` is what the request comes to, none of its parts refused. */
  ghost predicate IsFullPlan(
    env: Env, stored: StoredEvent, loaded: Loaded, request: Request, resulting: seq<ResultingDay>, plan: FullPlan)
  {
    && plan.event == (if request.event.Some? && ChangedEvent(request.event.value, stored.event) != stored.event
                      then request.event else None)
    && IsListPlan(DayRules(env.today), stored.days, loaded.days, request.days, plan.days)
    && (request.days.Some? ==> LabelsDistinct(env, stored.days, request.days.value))
    && AreResultingDays(env, stored.days, loaded.days, request.days, resulting)
    && IsListPlan(TicketRules(), stored.tickets, loaded.tickets, request.tickets, plan.tickets)
    && IsListPlan(RsvpFieldRules(env.isList), stored.rsvpFields, loaded.rsvpFields, request.rsvpFields, plan.rsvpFields)
    && IsProgramPlan(stored, loaded.items, resulting, request.program, plan.program)
    && IsHubPlan(stored.hub, request.opensAt, plan.hub)
  }

  ghost predicate IsLoaded(stored: StoredEvent, loaded: Loaded) {
    && IsLiveList(stored.days, loaded.days)
    && IsLiveList(stored.tickets, loaded.tickets)
    && IsLiveList(stored.rsvpFields, loaded.rsvpFields)
    && IsLiveList(StoredItems(stored), loaded.items)
  }

  // ── Writing ──

  ghost predicate IsWritten<V>(f: V -> V, table: Table<V>, plan: Plan<V>, ids: seq<Id>, after: Table<V>) {
    FreshIds(table, ids, |plan.creates|) && WellFormed(table, MapPlan(f, plan), ids) &&
        Applied(table, MapPlan(f, plan), ids, after)
  }

  function FillDayIds(createdDayIds: seq<Id>): Item -> Item {
    item => WithDayId(createdDayIds, item)
  }

  function Same<V>(v: V): V {
    v
  }

  /** The program row the items are written under. */
  function ProgramToWrite(stored: StoredEvent, plan: ProgramPlan): Option<Program> {
    var program := LiveProgram(stored);
    if plan.create.Some? then Some(Program(plan.create.value.0, plan.create.value.1, false, map[]))
    else if plan.update.Some? && program.Some? then
      Some(program.value.(title := Else(plan.update.value.0, program.value.title),
                          isPublished := Else(plan.update.value.1, program.value.isPublished)))
    else program
  }

  ghost predicate IsProgramWritten(stored: StoredEvent, plan: Option<ProgramPlan>, ids: NewIds,
      after: Option<Program>) {
    if plan.None? || ProgramToWrite(stored, plan.value).None? then after == stored.program && ids.items == []
    else
      var program := ProgramToWrite(stored, plan.value).value;
      after.Some? && after.value == program.(items := after.value.items)
      && IsWritten(FillDayIds(ids.days), program.items, plan.value.items, ids.items, after.value.items)
  }

  /** `after` is the event with the whole plan written. */
  ghost predicate IsSaved(stored: StoredEvent, plan: FullPlan, ids: NewIds, after: StoredEvent) {
    && after.event == (if plan.event.Some? then ChangedEvent(plan.event.value, stored.event) else stored.event)
    && IsWritten(Same, stored.days, plan.days, ids.days, after.days)
    && IsWritten(Same, stored.tickets, plan.tickets, ids.tickets, after.tickets)
    && IsWritten(Same, stored.rsvpFields, plan.rsvpFields, ids.rsvpFields, after.rsvpFields)
    && IsProgramWritten(stored, plan.program, ids, after.program)
    && after.hub == (if plan.hub.None? then stored.hub
                     else if stored.hub.Some? then Some(stored.hub.value.(opensAt := plan.hub.value))
                     else Some(Hub(plan.hub.value, false)))
  }

  /** Stored items name saved days. */
  ghost predicate ItemsNameSavedDays(items: Table<Item>) {
    forall id :: id in items && items[id].value.day.Some? ==> items[id].value.day.value.SavedDay?
  }

  /** The first save: planned from the event as stored, and written. */
  ghost predicate Save(
    env: Env, stored: StoredEvent, loaded: Loaded, request: Request, resulting: seq<ResultingDay>, plan: FullPlan,
    ids: NewIds, after: StoredEvent)
  {
    && IsLoaded(stored, loaded) && ItemsNameSavedDays(StoredItems(stored))
    && IsFullPlan(env, stored, loaded, request, resulting, plan)
    && IsSaved(stored, plan, ids, after)
  }

  // ── One list, saved and planned again ──

  ghost predicate RowsFit<F>(rows: Option<seq<Row<F>>>, ids: seq<Id>) {
    rows.Some? ==> NewRows(rows.value, |rows.value|) == |ids|
  }

  ghost function FillIds<F>(rows: Option<seq<Row<F>>>, ids: seq<Id>): Option<seq<Row<F>>>
    requires RowsFit(rows, ids)
  {
    if rows.None? then None else Some(WithIds(rows.value, ids))
  }

  ghost predicate ListReached<F, V, E>(
    f: V -> V, rules: Rules<F, V, E>, table: Table<V>, rows: Option<seq<Row<F>>>, ids: seq<Id>, after: Table<V>)
  {
    if rows.None? then after == table
    else Named(table, rows.value) && RowsFit(rows, ids) && Reached(f, rules, table, rows.value, ids, after)
  }

  lemma {:induction false} ListIsReached<F, V, E>(
    f: V -> V, rules: Rules<F, V, E>, table: Table<V>, live: seq<Id>, rows: Option<seq<Row<F>>>, plan: Plan<V>,
    ids: seq<Id>, after: Table<V>)
    requires IsLiveList(table, live) && IsListPlan(rules, table, live, rows, plan) &&
               IsWritten(f, table, plan, ids, after)
    requires forall id :: id in table ==> f(table[id].value) == table[id].value
    ensures RowsFit(rows, ids) && ListReached(f, rules, table, rows, ids, after)
  {
    if rows.Some? {
      ApplyingReachesTheRequest(f, rules, table, live, rows.value, plan, ids, after);
    } else {
      assert MapPlan(f, plan) == Nothing();
      assert after.Keys == table.Keys;
    }
  }

  // ── The request, reached ──

  /** The program's title and visibility are as asked, or as they were where the
      request says nothing of them. One is made only for items to go in. */
  ghost predicate ProgramReached(stored: StoredEvent, request: Option<ProgramRequest>, after: Option<Program>) {
    var program := LiveProgram(stored);
    if request.None? || (program.None? && (request.value.items.None? || request.value.items.value == [])) then
      after == stored.program
    else
      && after.Some? && !after.value.isArchived
      && after.value.title == Else(request.value.title, if program.Some? then program.value.title else None)
      && after.value.isPublished == Else(request.value.isPublished, program.Some? ==> program.value.isPublished)
  }

  /** The hub opens when asked, and is otherwise as it was. */
  predicate HubReached(hub: Option<Hub>, opensAt: Field<Option<Time>>, after: Option<Hub>) {
    if opensAt.Absent? then after == hub
    else after == Some(if hub.Some? then hub.value.(opensAt := opensAt.value) else Hub(opensAt.value, false))
  }

  /** Each part of the event is what the request asked for, and a part left out is as it was. */
  ghost predicate EventReached(
    env: Env, stored: StoredEvent, request: Request, resulting: seq<ResultingDay>, ids: NewIds, after: StoredEvent)
  {
    && after.event == (if request.event.Some? then ChangedEvent(request.event.value, stored.event) else stored.event)
    && ListReached(Same, DayRules(env.today), stored.days, request.days, ids.days, after.days)
    && ListReached(Same, TicketRules(), stored.tickets, request.tickets, ids.tickets, after.tickets)
    && ListReached(Same, RsvpFieldRules(env.isList), stored.rsvpFields, request.rsvpFields, ids.rsvpFields,
                   after.rsvpFields)
    && (request.program.Some? ==>
          ListReached(FillDayIds(ids.days), ItemRules(resulting), StoredItems(stored), request.program.value.items,
                      ids.items, StoredItems(after)))
    && ProgramReached(stored, request.program, after.program)
    && HubReached(stored.hub, request.opensAt, after.hub)
  }

  lemma {:induction false} NoneNamed<F>(rows: seq<Row<F>>, live: seq<Id>, n: nat)
    requires live == [] && Matched(rows, live) && n <= |rows|
    ensures NewRows(rows, n) == n
  {
    if n > 0 {
      NoneNamed(rows, live, n - 1);
      assert !Offends(rows, live, n - 1);
    }
  }

  lemma {:induction false} SomeIn(ids: seq<Id>)
    requires ids != []
    ensures exists id :: id in ids
  {
    assert ids[0] in ids;
  }

  /** Where no program is live every item is new, so items are created exactly when any are sent. */
  lemma {:induction false} ProgramIsReached(
    stored: StoredEvent, loaded: Loaded, resulting: seq<ResultingDay>, request: Option<ProgramRequest>,
    plan: Option<ProgramPlan>, ids: NewIds, after: Option<Program>)
    requires IsLiveList(StoredItems(stored), loaded.items)
    requires IsProgramPlan(stored, loaded.items, resulting, request, plan) && IsProgramWritten(stored, plan, ids, after)
    ensures ProgramReached(stored, request, after)
  {
    if request.Some? && LiveProgram(stored).None? && request.value.items.Some? {
      var rows := request.value.items.value;
      if loaded.items != [] {
        SomeIn(loaded.items);
      }
      NoneNamed(rows, loaded.items, |rows|);
      PlannedCount(ItemRules(resulting), StoredItems(stored), rows, |rows|);
    }
  }

  lemma {:induction false} ListsReached(
    env: Env, stored: StoredEvent, loaded: Loaded, request: Request, resulting: seq<ResultingDay>, plan: FullPlan,
    ids: NewIds, after: StoredEvent)
    requires Save(env, stored, loaded, request, resulting, plan, ids, after)
    ensures ListReached(Same, DayRules(env.today), stored.days, request.days, ids.days, after.days)
    ensures ListReached(Same, TicketRules(), stored.tickets, request.tickets, ids.tickets, after.tickets)
    ensures ListReached(Same, RsvpFieldRules(env.isList), stored.rsvpFields, request.rsvpFields, ids.rsvpFields,
                        after.rsvpFields)
  {
    ListIsReached(Same, DayRules(env.today), stored.days, loaded.days, request.days, plan.days, ids.days, after.days);
    ListIsReached(Same, TicketRules(), stored.tickets, loaded.tickets, request.tickets, plan.tickets, ids.tickets,
                  after.tickets);
    ListIsReached(Same, RsvpFieldRules(env.isList), stored.rsvpFields, loaded.rsvpFields, request.rsvpFields,
                  plan.rsvpFields,
                  ids.rsvpFields, after.rsvpFields);
  }

  lemma {:induction false} SavingReachesTheRequest(
    env: Env, stored: StoredEvent, loaded: Loaded, request: Request, resulting: seq<ResultingDay>, plan: FullPlan,
    ids: NewIds, after: StoredEvent)
    requires Save(env, stored, loaded, request, resulting, plan, ids, after)
    ensures EventReached(env, stored, request, resulting, ids, after)
  {
    ListsReached(env, stored, loaded, request, resulting, plan, ids, after);
    ProgramIsReached(stored, loaded, resulting, request.program, plan.program, ids, after.program);
    if request.program.Some? {
      ItemsReached(stored, loaded, request.program.value, resulting, plan.program.value, ids, after);
    }
  }

  lemma {:induction false} ItemsReached(
    stored: StoredEvent, loaded: Loaded, request: ProgramRequest, resulting: seq<ResultingDay>, plan: ProgramPlan,
    ids: NewIds, after: StoredEvent)
    requires IsLiveList(StoredItems(stored), loaded.items) && ItemsNameSavedDays(StoredItems(stored))
    requires IsProgramPlan(stored, loaded.items, resulting, Some(request), Some(plan))
    requires IsProgramWritten(stored, Some(plan), ids, after.program)
    ensures ListReached(FillDayIds(ids.days), ItemRules(resulting), StoredItems(stored), request.items, ids.items,
                        StoredItems(after))
  {
    var f := FillDayIds(ids.days);
    if ProgramToWrite(stored, plan).None? {
      NothingToWrite(f, ItemRules(resulting), StoredItems(stored), loaded.items, request.items, plan.items);
    }
    ListIsReached(f, ItemRules(resulting), StoredItems(stored), loaded.items, request.items, plan.items, ids.items,
                  StoredItems(after));
  }

  lemma {:induction false} NothingToWrite<F, V, E>(
    f: V -> V, rules: Rules<F, V, E>, none: Table<V>, live: seq<Id>, rows: Option<seq<Row<F>>>, plan: Plan<V>)
    requires none == map[] && IsLiveList(none, live) && IsListPlan(rules, none, live, rows, plan) && plan.creates == []
    ensures IsWritten(f, none, plan, [], none)
  {
    if rows.Some? {
      PlanFits(f, rules, none, live, rows.value, plan, []);
    }
    assert MapPlan(f, plan).updates == [];
  }
}
