/** What a full event update promises across its parts: its days pass the label
    index exactly when no archived day holds a wanted label, its items land on
    the days they name, and sending it again changes nothing. */
module FullUpdateAgain {
  import opened Prelude
  import opened ListPlan
  import opened ListApply
  import opened DayRelabel
  import opened FullUpdateRules
  import opened FullUpdate

  // ── The planned days, written under the label index ──

  ghost predicate NoPlaceholders(env: Env, days: Days, rows: seq<Row<DayFields>>)
    requires Named(days, rows)
  {
    && (forall id :: id in days ==> !IsPlaceholder(days[id].value.dayLabel))
    && (forall k :: 0 <= k < |rows| && Wanted(DayRules(env.today), days, rows, k).Ok? ==>
          !IsPlaceholder(Wanted(DayRules(env.today), days, rows, k).value.dayLabel))
  }

  /** A day the plan knows of, at the position of the request it comes from. */
  ghost predicate DayAt(env: Env, days: Days, rows: seq<Row<DayFields>>, k: nat, id: Option<Id>, day: Day)
    requires Named(days, rows)
  {
    k < |rows| && rows[k].id == id && Wanted(DayRules(env.today), days, rows, k) == Ok(day)
  }

  ghost predicate PlansDays(env: Env, days: Days, live: seq<Id>, rows: seq<Row<DayFields>>, plan: Plan<Day>,
      ids: seq<Id>) {
    && IsLiveList(days, live) && Named(days, rows) && IsPlan(DayRules(env.today), days, live, rows, plan)
    && LabelsDistinct(env, days, rows) && NoPlaceholders(env, days, rows)
    && FreshIds(days, ids, |plan.creates|) && UniqueLabels(days)
  }

  lemma {:induction false} PositionOfUpdate(
    env: Env, days: Days, live: seq<Id>, rows: seq<Row<DayFields>>, plan: Plan<Day>, ids: seq<Id>, m: nat)
        returns (k: nat)
    requires PlansDays(env, days, live, rows, plan, ids) && m < |plan.updates|
    ensures DayAt(env, days, rows, k, Some(plan.updates[m].id), plan.updates[m].value)
  {
    PlannedUpdates(DayRules(env.today), days, live, rows, |rows|);
    assert IsFrom(DayRules(env.today), days, rows, |rows|, plan.updates[m]);
    k :| 0 <= k < |rows| && rows[k].id == Some(plan.updates[m].id) &&
        Wanted(DayRules(env.today), days, rows, k) == Ok(plan.updates[m].value);
  }

  lemma {:induction false} PositionOfCreate(
    env: Env, days: Days, live: seq<Id>, rows: seq<Row<DayFields>>, plan: Plan<Day>, ids: seq<Id>, m: nat)
        returns (k: nat)
    requires PlansDays(env, days, live, rows, plan, ids) && m < |plan.creates|
    ensures DayAt(env, days, rows, k, None, plan.creates[m]) && NewRows(rows, k) == m
  {
    PlannedCount(DayRules(env.today), days, rows, |rows|);
    NewRowAt(rows, m, |rows|);
    k :| 0 <= k < |rows| && rows[k].id.None? && NewRows(rows, k) == m;
    PlannedCreate(DayRules(env.today), days, rows, |rows|, k);
  }

  lemma {:induction false} PositionOfKept(
    env: Env, days: Days, live: seq<Id>, rows: seq<Row<DayFields>>, plan: Plan<Day>, ids: seq<Id>, id: Id)
        returns (k: nat)
    requires PlansDays(env, days, live, rows, plan, ids) && Kept(days, plan, id)
    ensures DayAt(env, days, rows, k, Some(id), days[id].value)
  {
    RemovedRows(live, rows, id);
    PlannedUpdates(DayRules(env.today), days, live, rows, |rows|);
    k :| 0 <= k < |rows| && rows[k].id == Some(id);
  }

  lemma {:induction false} PositionsHaveOwnLabels(env: Env, days: Days, rows: seq<Row<DayFields>>, j: nat, k: nat,
      a: Option<Id>, b: Option<Id>, x: Day, y: Day)
    requires Named(days, rows) && LabelsDistinct(env, days, rows)
    requires DayAt(env, days, rows, j, a, x) && DayAt(env, days, rows, k, b, y) && j != k
    ensures x.dayLabel != y.dayLabel
  {
    assert LabelAt(env, days, rows, j) != LabelAt(env, days, rows, k);
  }

  lemma {:induction false} PlannedDaysFit(env: Env, days: Days, live: seq<Id>, rows: seq<Row<DayFields>>,
      plan: Plan<Day>, ids: seq<Id>)
    requires PlansDays(env, days, live, rows, plan, ids)
    ensures Fits(days, plan, ids)
  {
    PlanFits(Same, DayRules(env.today), days, live, rows, plan, ids);
    SamePlan(plan);
    forall m, n | 0 <= m < n < |plan.updates| ensures plan.updates[m].value.dayLabel != plan.updates[n].value.dayLabel {
      var j := PositionOfUpdate(env, days, live, rows, plan, ids, m);
      var k := PositionOfUpdate(env, days, live, rows, plan, ids, n);
      PositionsHaveOwnLabels(env, days, rows, j, k, Some(plan.updates[m].id), Some(plan.updates[n].id),
                             plan.updates[m].value, plan.updates[n].value);
    }
    forall m, n | 0 <= m < n < |plan.creates| ensures plan.creates[m].dayLabel != plan.creates[n].dayLabel {
      var j := PositionOfCreate(env, days, live, rows, plan, ids, m);
      var k := PositionOfCreate(env, days, live, rows, plan, ids, n);
      PositionsHaveOwnLabels(env, days, rows, j, k, None, None, plan.creates[m], plan.creates[n]);
    }
    forall m, n | 0 <= m < |plan.updates| && 0 <= n < |plan.creates|
      ensures plan.updates[m].value.dayLabel != plan.creates[n].dayLabel {
      var j := PositionOfUpdate(env, days, live, rows, plan, ids, m);
      var k := PositionOfCreate(env, days, live, rows, plan, ids, n);
      PositionsHaveOwnLabels(env, days, rows, j, k, Some(plan.updates[m].id), None, plan.updates[m].value,
                             plan.creates[n]);
    }
    forall id, m | Kept(days, plan, id) && 0 <= m < |plan.updates|
      ensures days[id].value.dayLabel != plan.updates[m].value.dayLabel {
      var j := PositionOfKept(env, days, live, rows, plan, ids, id);
      var k := PositionOfUpdate(env, days, live, rows, plan, ids, m);
      assert plan.updates[m].id != id;
      PositionsHaveOwnLabels(env, days, rows, j, k, Some(id), Some(plan.updates[m].id), days[id].value,
                             plan.updates[m].value);
    }
    forall id, m | Kept(days, plan, id) && 0 <= m < |plan.creates|
      ensures days[id].value.dayLabel != plan.creates[m].dayLabel {
      var j := PositionOfKept(env, days, live, rows, plan, ids, id);
      var k := PositionOfCreate(env, days, live, rows, plan, ids, m);
      PositionsHaveOwnLabels(env, days, rows, j, k, Some(id), None, days[id].value, plan.creates[m]);
    }
    forall m | 0 <= m < |plan.updates| ensures !IsPlaceholder(plan.updates[m].value.dayLabel) {
      var k := PositionOfUpdate(env, days, live, rows, plan, ids, m);
    }
  }

  lemma {:induction false} SamePlan<V>(plan: Plan<V>)
    ensures MapPlan(Same, plan) == plan
  {
    var mapped := MapPlan(Same, plan);
    assert mapped.creates == plan.creates;
    forall m | 0 <= m < |plan.updates| ensures mapped.updates[m] == plan.updates[m] {
      assert plan.updates[m] == Update(plan.updates[m].id, plan.updates[m].value);
    }
    assert mapped.updates == plan.updates;
  }

  /** From request to rows: the days part is saved as asked, or refused over a label an archived day holds. */
  lemma {:induction false} DaysSaveOrClash(env: Env, days: Days, live: seq<Id>, rows: seq<Row<DayFields>>,
      plan: Plan<Day>, ids: seq<Id>)
    requires PlansDays(env, days, live, rows, plan, ids)
    ensures var r := Run(days, Writes(days, plan, ids));
            && (r.Ok? <==> NoClash(days, plan))
            && (r.Ok? ==>
                  NewRows(rows, |rows|) == |ids| && Reached(Same, DayRules(env.today), days, rows, ids, r.value))
            && (r.Err? ==> Taken(days, plan, r.error))
  {
    PlannedDaysFit(env, days, live, rows, plan, ids);
    SaveFailsExactlyOnAClash(days, plan, ids);
    SamePlan(plan);
    var r := Run(days, Writes(days, plan, ids));
    if r.Ok? {
      ApplyingReachesTheRequest(Same, DayRules(env.today), days, live, rows, plan, ids, r.value);
    }
  }

  // ── The same request again ──

  ghost predicate RequestFits(request: Request, ids: NewIds) {
    && RowsFit(request.days, ids.days) && RowsFit(request.tickets, ids.tickets) &&
        RowsFit(request.rsvpFields, ids.rsvpFields)
    && (request.program.Some? ==> RowsFit(request.program.value.items, ids.items))
  }

  /** The request with each new row's id filled in. */
  ghost function WithAllIds(request: Request, ids: NewIds): Request
    requires RequestFits(request, ids)
  {
    request.(days := FillIds(request.days, ids.days), tickets := FillIds(request.tickets, ids.tickets),
             rsvpFields := FillIds(request.rsvpFields, ids.rsvpFields),
             program := if request.program.None? then None
                        else Some(request.program.value.(items := FillIds(request.program.value.items, ids.items))))
  }

  function NoChange(request: Request): FullPlan {
    FullPlan(None, Nothing(), Nothing(), Nothing(),
             if request.program.None? then None else Some(ProgramPlan(None, None, Nothing())), None)
  }

  /** No new ticket type is asked to be unavailable. */
  ghost predicate NewTicketsAvailable(request: Request) {
    request.tickets.Some? ==>
      forall k :: 0 <= k < |request.tickets.value| && request.tickets.value[k].id.None? ==>
        request.tickets.value[k].fields.isAvailable != Given(false)
  }

  /** The days as they are now, in this order. */
  ghost function AsSaved(days: Days, order: seq<Id>): seq<ResultingDay>
    requires forall n :: 0 <= n < |order| ==> order[n] in days
  {
    seq(|order|, n requires 0 <= n < |order| => ResultingDay(SavedDay(order[n]), days[order[n]].value.date, false))
  }

  /** The days part of the request, planned again: nothing to do, and the same days at the same positions. */
  ghost predicate DaysAgain(
    rows: Option<seq<Row<DayFields>>>, resulting: seq<ResultingDay>, ids: seq<Id>, after: Days, later: Env,
    live: seq<Id>, saved: seq<ResultingDay>)
  {
    && RowsFit(rows, ids)
    && IsListPlan(DayRules(later.today), after, live, FillIds(rows, ids), Nothing())
    && (rows.Some? ==> LabelsDistinct(later, after, FillIds(rows, ids).value))
    && AreResultingDays(later, after, live, FillIds(rows, ids), saved)
    && DaysSaved(resulting, ids, saved)
  }

  lemma {:induction false} DaysPlannedAgain(
    env: Env, days: Days, rows: seq<Row<DayFields>>, resulting: seq<ResultingDay>, ids: seq<Id>, after: Days,
    later: Env, live: seq<Id>)
    returns (saved: seq<ResultingDay>)
    requires Named(days, rows) && NewRows(rows, |rows|) == |ids| &&
               Reached(Same, DayRules(env.today), days, rows, ids, after)
    requires LabelsDistinct(env, days, rows) && AreResultingDays(env, days, [], Some(rows), resulting)
    requires later.fold == env.fold && IsLiveList(after, live)
    ensures DaysAgain(Some(rows), resulting, ids, after, later, live, saved)
  {
    DaysListAgain(env, days, rows, ids, after, later, live);
    SameLabelsAgain(env, days, rows, ids, after, later);
    saved := ResultingDaysAgain(env, days, rows, ids, after, later, resulting);
  }

  lemma {:induction false} DaysListAgain(
    env: Env, days: Days, rows: seq<Row<DayFields>>, ids: seq<Id>, after: Days, later: Env, live: seq<Id>)
    requires Named(days, rows) && NewRows(rows, |rows|) == |ids| &&
               Reached(Same, DayRules(env.today), days, rows, ids, after)
    requires IsLiveList(after, live)
    ensures IsListPlan(DayRules(later.today), after, live, Some(WithIds(rows, ids)), Nothing())
  {
    forall k | 0 <= k < |rows|
      ensures var v := Same(Wanted(DayRules(env.today), days, rows, k).value);
              DayRules(later.today).merge(k, rows[k].fields, v) == Ok(v)
    {
      SameDayAt(env, days, rows, ids, after, later, k);
    }
    SecondPlanIsEmpty(Same, DayRules(env.today), days, rows, ids, after, DayRules(later.today), live);
  }

  /** At each position, the fields sent again want the day they made. */
  lemma {:induction false} SameDayAt(env: Env, days: Days, rows: seq<Row<DayFields>>, ids: seq<Id>, after: Days,
      later: Env, k: nat)
    requires Named(days, rows) && NewRows(rows, |rows|) == |ids| && k < |rows|
    requires Reached(Same, DayRules(env.today), days, rows, ids, after)
    ensures Wanted(DayRules(env.today), days, rows, k).Ok?
    ensures var v := Wanted(DayRules(env.today), days, rows, k).value;
            DayRules(later.today).merge(k, rows[k].fields, v) == Ok(v)
    ensures Named(after, WithIds(rows, ids))
    ensures Wanted(DayRules(later.today), after, WithIds(rows, ids), k) == Wanted(DayRules(env.today), days, rows, k)
  {
    SameDayAgain(env.today, later.today, rows[k].fields, if rows[k].id.Some? then Some(days[rows[k].id.value].value)
                 else None);
  }

  lemma {:induction false} SameLabelsAgain(env: Env, days: Days, rows: seq<Row<DayFields>>, ids: seq<Id>, after: Days,
      later: Env)
    requires Named(days, rows) && NewRows(rows, |rows|) == |ids| && later.fold == env.fold
    requires Reached(Same, DayRules(env.today), days, rows, ids, after) && LabelsDistinct(env, days, rows)
    ensures Named(after, WithIds(rows, ids)) && LabelsDistinct(later, after, WithIds(rows, ids))
  {
    var again := WithIds(rows, ids);
    forall k | 0 <= k < |rows|
      ensures Wanted(DayRules(env.today), days, rows, k).Ok? && Wanted(DayRules(later.today), after, again, k).Ok?
      ensures LabelAt(later, after, again, k) == LabelAt(env, days, rows, k)
    {
      SameDayAt(env, days, rows, ids, after, later, k);
    }
  }

  lemma {:induction false} ResultingDayAgain(
    env: Env, days: Days, rows: seq<Row<DayFields>>, ids: seq<Id>, after: Days, later: Env,
    resulting: seq<ResultingDay>, n: nat)
    requires Named(days, rows) && NewRows(rows, |rows|) == |ids| && n < |rows|
    requires Reached(Same, DayRules(env.today), days, rows, ids, after) &&
               AreResultingDays(env, days, [], Some(rows), resulting)
    ensures var again, id := WithIds(rows, ids), IdAt(rows, ids, n);
            && Named(after, again) && Wanted(DayRules(later.today), after, again, n).Ok? && id in after
            && DayAfter(later, after, again, n) == ResultingDay(SavedDay(id), after[id].value.date, false)
            && after[id].value.date == resulting[n].date
    ensures resulting[n].ref.CreatedDay? ==>
              resulting[n].ref.index < |ids| && IdAt(rows, ids, n) == ids[resulting[n].ref.index]
    ensures resulting[n].ref.SavedDay? ==> IdAt(rows, ids, n) == resulting[n].ref.id
  {
    SameDayAt(env, days, rows, ids, after, later, n);
    NewRowsGrow(rows, n, |rows|);
  }

  lemma {:induction false} ResultingDaysAgain(
    env: Env, days: Days, rows: seq<Row<DayFields>>, ids: seq<Id>, after: Days, later: Env,
    resulting: seq<ResultingDay>)
    returns (saved: seq<ResultingDay>)
    requires Named(days, rows) && NewRows(rows, |rows|) == |ids|
    requires Reached(Same, DayRules(env.today), days, rows, ids, after) &&
               AreResultingDays(env, days, [], Some(rows), resulting)
    ensures AreResultingDays(later, after, [], Some(WithIds(rows, ids)), saved) && DaysSaved(resulting, ids, saved)
    ensures forall n :: 0 <= n < |rows| ==> saved[n].ref == SavedDay(IdAt(rows, ids, n))
  {
    saved := AsSaved(after, seq(|rows|, k requires 0 <= k < |rows| => IdAt(rows, ids, k)));
    forall n | 0 <= n < |rows|
      ensures var again := WithIds(rows, ids);
              && Named(after, again) && Wanted(DayRules(later.today), after, again, n).Ok?
              && saved[n] == DayAfter(later, after, again, n) && saved[n].date == resulting[n].date
      ensures resulting[n].ref.CreatedDay? ==>
                resulting[n].ref.index < |ids| && saved[n].ref.id == ids[resulting[n].ref.index]
      ensures resulting[n].ref.SavedDay? ==> saved[n].ref.id == resulting[n].ref.id
    {
      ResultingDayAgain(env, days, rows, ids, after, later, resulting, n);
    }
  }

  lemma {:induction false} DaysLeftAlone(days: Days, live: seq<Id>, resulting: seq<ResultingDay>, env: Env, later: Env,
      ids: seq<Id>)
    returns (saved: seq<ResultingDay>)
    requires IsLiveList(days, live) && AreResultingDays(env, days, live, None, resulting)
    ensures DaysAgain(None, resulting, ids, days, later, live, saved)
  {
    saved := AsSaved(days, live);
  }

  // ── The other lists ──

  lemma {:induction false} TicketsPlannedAgain(
    stored: Table<Ticket>, rows: Option<seq<Row<TicketFields>>>, ids: seq<Id>, after: Table<Ticket>, live: seq<Id>)
    requires ListReached(Same, TicketRules(), stored, rows, ids, after) && RowsFit(rows, ids) && IsLiveList(after, live)
    requires rows.Some? ==>
               forall k :: 0 <= k < |rows.value| && rows.value[k].id.None? ==>
                   rows.value[k].fields.isAvailable != Given(false)
    ensures IsListPlan(TicketRules(), after, live, FillIds(rows, ids), Nothing())
  {
    if rows.Some? {
      forall k | 0 <= k < |rows.value|
        ensures var v := Same(Wanted(TicketRules(), stored, rows.value, k).value);
                TicketRules().merge(k, rows.value[k].fields, v) == Ok(v)
      {
        var row := rows.value[k];
        SameTicketAgain(row.fields, if row.id.Some? then Some(stored[row.id.value].value) else None);
      }
      SecondPlanIsEmpty(Same, TicketRules(), stored, rows.value, ids, after, TicketRules(), live);
    }
  }

  /** A ticket type asked for as unavailable is created available, so the request has still something to do. */
  lemma {:induction false} UnavailableTicketPlannedAgain(
    stored: Table<Ticket>, rows: seq<Row<TicketFields>>, ids: seq<Id>, after: Table<Ticket>, live: seq<Id>, k: nat,
    plan: Plan<Ticket>)
    requires Named(stored, rows) && NewRows(rows, |rows|) == |ids| &&
               Reached(Same, TicketRules(), stored, rows, ids, after)
    requires k < |rows| && rows[k].id.None? && rows[k].fields.isAvailable == Given(false)
    requires Named(after, WithIds(rows, ids)) && IsPlan(TicketRules(), after, live, WithIds(rows, ids), plan)
    ensures |plan.updates| > 0
  {
    var again := WithIds(rows, ids);
    SameTicketAgain(rows[k].fields, None);
    PlannedCreate(TicketRules(), after, again, |again|, k);
    PlannedUpdates(TicketRules(), after, live, again, |again|);
    assert Wanted(TicketRules(), after, again, k) != Ok(after[again[k].id.value].value);
    assert IsUpdated(plan.updates, |plan.updates|, again[k].id.value);
  }

  lemma {:induction false} RsvpFieldsPlannedAgain(
    isList: string -> bool, stored: Table<RsvpField>, rows: Option<seq<Row<RsvpFieldFields>>>, ids: seq<Id>,
    after: Table<RsvpField>, live: seq<Id>)
    requires ListReached(Same, RsvpFieldRules(isList), stored, rows, ids, after) && RowsFit(rows, ids) &&
               IsLiveList(after, live)
    ensures IsListPlan(RsvpFieldRules(isList), after, live, FillIds(rows, ids), Nothing())
  {
    if rows.Some? {
      forall k | 0 <= k < |rows.value|
        ensures var v := Same(Wanted(RsvpFieldRules(isList), stored, rows.value, k).value);
                RsvpFieldRules(isList).merge(k, rows.value[k].fields, v) == Ok(v)
      {
        var row := rows.value[k];
        SameRsvpFieldAgain(isList, k, row.fields, if row.id.Some? then Some(stored[row.id.value].value) else None);
      }
      SecondPlanIsEmpty(Same, RsvpFieldRules(isList), stored, rows.value, ids, after, RsvpFieldRules(isList), live);
    }
  }

  lemma {:induction false} ItemsPlannedAgain(
    resulting: seq<ResultingDay>, dayIds: seq<Id>, saved: seq<ResultingDay>,
    stored: Table<Item>, rows: Option<seq<Row<ItemFields>>>, ids: seq<Id>, after: Table<Item>, live: seq<Id>)
    requires DaysSaved(resulting, dayIds, saved) && ItemsNameSavedDays(stored)
    requires ListReached(FillDayIds(dayIds), ItemRules(resulting), stored, rows, ids, after) && RowsFit(rows, ids) &&
               IsLiveList(after, live)
    ensures IsListPlan(ItemRules(saved), after, live, FillIds(rows, ids), Nothing())
  {
    if rows.Some? {
      var f := FillDayIds(dayIds);
      forall k | 0 <= k < |rows.value|
        ensures var v := f(Wanted(ItemRules(resulting), stored, rows.value, k).value);
                ItemRules(saved).merge(k, rows.value[k].fields, v) == Ok(v)
      {
        var row := rows.value[k];
        SameItemAgain(resulting, dayIds, saved, k, row.fields, if row.id.Some? then Some(stored[row.id.value].value)
                      else None);
      }
      SecondPlanIsEmpty(f, ItemRules(resulting), stored, rows.value, ids, after, ItemRules(saved), live);
    }
  }

  // ── The main results ──

  lemma {:induction false} ProgramPlannedAgain(
    stored: StoredEvent, loaded: Loaded, request: ProgramRequest, resulting: seq<ResultingDay>, plan: ProgramPlan,
    ids: NewIds, after: StoredEvent,
    saved: seq<ResultingDay>, live: seq<Id>)
    requires IsLiveList(StoredItems(stored), loaded.items) && ItemsNameSavedDays(StoredItems(stored))
    requires IsProgramPlan(stored, loaded.items, resulting, Some(request), Some(plan))
    requires IsProgramWritten(stored, Some(plan), ids, after.program)
    requires DaysSaved(resulting, ids.days, saved) && IsLiveList(StoredItems(after), live)
    ensures RowsFit(request.items, ids.items)
    ensures IsProgramPlan(after, live, saved, Some(request.(items := FillIds(request.items, ids.items))),
                          Some(ProgramPlan(None, None, Nothing())))
  {
    ItemsReached(stored, loaded, request, resulting, plan, ids, after);
    ItemsPlannedAgain(resulting, ids.days, saved, StoredItems(stored), request.items, ids.items, StoredItems(after),
                      live);
  }

  lemma {:induction false} SavedRequestFits(
    env: Env, stored: StoredEvent, loaded: Loaded, request: Request, resulting: seq<ResultingDay>, plan: FullPlan,
    ids: NewIds, after: StoredEvent)
    requires Save(env, stored, loaded, request, resulting, plan, ids, after)
    ensures RequestFits(request, ids)
  {
    SavingReachesTheRequest(env, stored, loaded, request, resulting, plan, ids, after);
  }

  lemma {:induction false} ListsPlannedAgain(
    env: Env, stored: StoredEvent, loaded: Loaded, request: Request, resulting: seq<ResultingDay>, plan: FullPlan,
    ids: NewIds, after: StoredEvent,
    later: Env, reloaded: Loaded)
    requires Save(env, stored, loaded, request, resulting, plan, ids, after) && IsLoaded(after, reloaded)
    requires later.isList == env.isList && RequestFits(request, ids)
    ensures IsListPlan(RsvpFieldRules(later.isList), after.rsvpFields, reloaded.rsvpFields,
                       FillIds(request.rsvpFields, ids.rsvpFields), Nothing())
    ensures NewTicketsAvailable(request) ==>
              IsListPlan(TicketRules(), after.tickets, reloaded.tickets, FillIds(request.tickets, ids.tickets),
                         Nothing())
  {
    ListIsReached(Same, TicketRules(), stored.tickets, loaded.tickets, request.tickets, plan.tickets, ids.tickets,
                  after.tickets);
    ListIsReached(Same, RsvpFieldRules(env.isList), stored.rsvpFields, loaded.rsvpFields, request.rsvpFields,
                  plan.rsvpFields,
                  ids.rsvpFields, after.rsvpFields);
    RsvpFieldsPlannedAgain(env.isList, stored.rsvpFields, request.rsvpFields, ids.rsvpFields, after.rsvpFields,
                           reloaded.rsvpFields);
    if NewTicketsAvailable(request) {
      TicketsPlannedAgain(stored.tickets, request.tickets, ids.tickets, after.tickets, reloaded.tickets);
    }
  }

  /** Sending the saved request again, its new rows' ids filled in, finds
      nothing to do, unless it asked for a new ticket type to be unavailable. */
  lemma {:induction false} SavingAgainChangesNothing(
    env: Env, stored: StoredEvent, loaded: Loaded, request: Request, resulting: seq<ResultingDay>, plan: FullPlan,
    ids: NewIds, after: StoredEvent,
    later: Env, reloaded: Loaded) returns (saved: seq<ResultingDay>)
    requires Save(env, stored, loaded, request, resulting, plan, ids, after) && IsLoaded(after, reloaded)
    requires later.fold == env.fold && later.isList == env.isList &&
               (request.days.None? ==> reloaded.days == loaded.days)
    requires NewTicketsAvailable(request)
    ensures RequestFits(request, ids)
    ensures IsFullPlan(later, after, reloaded, WithAllIds(request, ids), saved, NoChange(request))
    ensures !HasChanges(NoChange(request))
  {
    SavedRequestFits(env, stored, loaded, request, resulting, plan, ids, after);
    saved := DaysOfSecondPlan(env, stored, loaded, request, resulting, plan, ids, after, later, reloaded);
    ListsPlannedAgain(env, stored, loaded, request, resulting, plan, ids, after, later, reloaded);
    ProgramOfSecondPlan(stored, loaded, request, resulting, plan, ids, after, saved, reloaded.items);
  }

  /** The one exception, and it always shows: a new ticket type asked for as
      unavailable was created available, so sending the request again changes it. */
  lemma {:induction false} UnavailableTicketIsChangedLater(
    env: Env, stored: StoredEvent, loaded: Loaded, request: Request, resulting: seq<ResultingDay>, plan: FullPlan,
    ids: NewIds, after: StoredEvent,
    later: Env, reloaded: Loaded, saved: seq<ResultingDay>, again: FullPlan)
    requires Save(env, stored, loaded, request, resulting, plan, ids, after) && RequestFits(request, ids)
    requires !NewTicketsAvailable(request)
    requires IsFullPlan(later, after, reloaded, WithAllIds(request, ids), saved, again)
    ensures HasChanges(again)
  {
    ListIsReached(Same, TicketRules(), stored.tickets, loaded.tickets, request.tickets, plan.tickets, ids.tickets,
                  after.tickets);
    var rows := request.tickets.value;
    var k :| 0 <= k < |rows| && rows[k].id.None? && rows[k].fields.isAvailable == Given(false);
    UnavailableTicketPlannedAgain(stored.tickets, rows, ids.tickets, after.tickets, reloaded.tickets, k, again.tickets);
  }

  lemma {:induction false} ProgramOfSecondPlan(
    stored: StoredEvent, loaded: Loaded, request: Request, resulting: seq<ResultingDay>, plan: FullPlan, ids: NewIds,
    after: StoredEvent,
    saved: seq<ResultingDay>, live: seq<Id>)
    requires IsLiveList(StoredItems(stored), loaded.items) && ItemsNameSavedDays(StoredItems(stored))
    requires IsProgramPlan(stored, loaded.items, resulting, request.program, plan.program)
    requires IsProgramWritten(stored, plan.program, ids, after.program)
    requires DaysSaved(resulting, ids.days, saved) && IsLiveList(StoredItems(after), live) && RequestFits(request, ids)
    ensures IsProgramPlan(after, live, saved, WithAllIds(request, ids).program, NoChange(request).program)
  {
    if request.program.Some? {
      ProgramPlannedAgain(stored, loaded, request.program.value, resulting, plan.program.value, ids, after, saved,
                          live);
    }
  }

  lemma {:induction false} DaysOfSecondPlan(
    env: Env, stored: StoredEvent, loaded: Loaded, request: Request, resulting: seq<ResultingDay>, plan: FullPlan,
    ids: NewIds, after: StoredEvent,
    later: Env, reloaded: Loaded) returns (saved: seq<ResultingDay>)
    requires Save(env, stored, loaded, request, resulting, plan, ids, after) && IsLoaded(after, reloaded)
    requires later.fold == env.fold && (request.days.None? ==> reloaded.days == loaded.days)
    ensures DaysAgain(request.days, resulting, ids.days, after.days, later, reloaded.days, saved)
  {
    ListIsReached(Same, DayRules(env.today), stored.days, loaded.days, request.days, plan.days, ids.days, after.days);
    if request.days.None? {
      saved := DaysLeftAlone(after.days, reloaded.days, resulting, env, later, ids.days);
    } else {
      saved := DaysPlannedAgain(env, stored.days, request.days.value, resulting, ids.days, after.days, later,
                                reloaded.days);
    }
  }

  /** A planned item that names a position ends up filed under the day at that position. */
  lemma {:induction false} ItemsLandOnTheirDays(
    env: Env, days: Days, dayRows: seq<Row<DayFields>>, dayIds: seq<Id>, daysAfter: Days, resulting: seq<ResultingDay>,
    items: Table<Item>, rows: seq<Row<ItemFields>>, ids: seq<Id>, itemsAfter: Table<Item>, k: nat)
    requires Named(days, dayRows) && NewRows(dayRows, |dayRows|) == |dayIds|
    requires Reached(Same, DayRules(env.today), days, dayRows, dayIds, daysAfter) &&
               AreResultingDays(env, days, [], Some(dayRows), resulting)
    requires Named(items, rows) && NewRows(rows, |rows|) == |ids|
    requires Reached(FillDayIds(dayIds), ItemRules(resulting), items, rows, ids, itemsAfter)
    requires k < |rows| && rows[k].fields.dayIndex.Given? && rows[k].fields.dayIndex.value.Some?
    ensures var index := rows[k].fields.dayIndex.value.value;
            && 0 <= index < |dayRows|
            && IdAt(rows, ids, k) in itemsAfter
            && itemsAfter[IdAt(rows, ids, k)].value.day == Some(SavedDay(IdAt(dayRows, dayIds, index)))
  {
    var saved := ResultingDaysAgain(env, days, dayRows, dayIds, daysAfter, env, resulting);
    assert Wanted(ItemRules(resulting), items, rows, k).Ok?;
    ItemFiledUnderItsDay(resulting, dayIds, saved, k, rows[k].fields,
                         if rows[k].id.Some? then Some(items[rows[k].id.value].value) else None);
  }
}
