/** A full event update writes only when there is something to write: exactly
    when the event it would leave differs from the event stored. */
module FullUpdateChanges {
  import opened Prelude
  import opened ListPlan
  import opened ListApply
  import opened DayRelabel
  import opened FullUpdateRules
  import opened FullUpdate

  predicate IsEmpty<V(==)>(plan: Plan<V>) {
    plan.creates == [] && plan.updates == [] && plan.archives == []
  }

  ghost predicate UpdatesDiffer<V>(f: V -> V, table: Table<V>, plan: Plan<V>) {
    forall n :: 0 <= n < |plan.updates| ==>
      plan.updates[n].id in table && f(plan.updates[n].value) != table[plan.updates[n].id].value
  }

  /** A plan updates only rows it changes. */
  lemma {:induction false} PlannedUpdatesDiffer<F, V, E>(
    rules: Rules<F, V, E>, table: Table<V>, live: seq<Id>, rows: Option<seq<Row<F>>>, plan: Plan<V>)
    requires IsListPlan(rules, table, live, rows, plan)
    ensures UpdatesDiffer(Same, table, plan)
  {
    if rows.Some? {
      PlannedUpdates(rules, table, live, rows.value, |rows.value|);
      forall n | 0 <= n < |plan.updates|
        ensures plan.updates[n].id in table && plan.updates[n].value != table[plan.updates[n].id].value
      {
        assert IsFrom(rules, table, rows.value, |rows.value|, plan.updates[n]);
      }
    }
  }

  /** A list's plan is empty exactly when writing it leaves the table as it was. */
  lemma {:induction false} EmptyExactly<V>(f: V -> V, table: Table<V>, plan: Plan<V>, ids: seq<Id>, after: Table<V>)
    requires IsWritten(f, table, plan, ids, after) && UpdatesDiffer(f, table, plan)
    ensures IsEmpty(plan) <==> after == table
  {
    var p := MapPlan(f, plan);
    if plan.updates != [] {
      assert p.updates[0] == Update(plan.updates[0].id, f(plan.updates[0].value));
    }
    if plan.archives != [] {
      assert plan.archives[0] in p.archives;
    }
    if plan.creates != [] {
      assert ids[0] in after;
    }
    if IsEmpty(plan) {
      assert after.Keys == table.Keys;
    }
  }

  /** Items are filed under days there are. */
  ghost predicate ItemsNameDays(items: Table<Item>, days: Days) {
    forall id :: id in items && items[id].value.day.Some? ==>
      items[id].value.day.value.SavedDay? && items[id].value.day.value.id in days
  }

  lemma {:induction false} FilledUpdatesDiffer(items: Table<Item>, days: Days, plan: Plan<Item>, newDayIds: seq<Id>)
    requires ItemsNameDays(items, days) && UpdatesDiffer(Same, items, plan)
    requires forall m :: 0 <= m < |newDayIds| ==> newDayIds[m] !in days
    ensures UpdatesDiffer(FillDayIds(newDayIds), items, plan)
  {
  }

  predicate ProgramChanges(plan: Option<ProgramPlan>) {
    plan.Some? && (plan.value.create.Some? || plan.value.update.Some? || !IsEmpty(plan.value.items))
  }

  /** The program's part of the plan is empty exactly when the program is left as it was. */
  lemma {:induction false} ProgramChangesExactly(
    stored: StoredEvent, loaded: Loaded, resulting: seq<ResultingDay>, request: Option<ProgramRequest>,
    plan: Option<ProgramPlan>, ids: NewIds, after: Option<Program>)
    requires IsLiveList(StoredItems(stored), loaded.items) && ItemsNameDays(StoredItems(stored), stored.days)
    requires forall m :: 0 <= m < |ids.days| ==> ids.days[m] !in stored.days
    requires IsProgramPlan(stored, loaded.items, resulting, request, plan) && IsProgramWritten(stored, plan, ids, after)
    ensures ProgramChanges(plan) <==> after != stored.program
  {
    if request.Some? {
      var items := plan.value.items;
      PlannedUpdatesDiffer(ItemRules(resulting), StoredItems(stored), loaded.items, request.value.items, items);
      FilledUpdatesDiffer(StoredItems(stored), stored.days, items, ids.days);
      if ProgramToWrite(stored, plan.value).None? {
        NoItemsToChange(resulting, stored, loaded.items, request.value.items, items);
      } else {
        var program := ProgramToWrite(stored, plan.value).value;
        EmptyExactly(FillDayIds(ids.days), program.items, items, ids.items, after.value.items);
      }
    }
  }

  lemma {:induction false} NoItemsToChange(
    resulting: seq<ResultingDay>, stored: StoredEvent, live: seq<Id>, rows: Option<seq<Row<ItemFields>>>,
    plan: Plan<Item>)
    requires StoredItems(stored) == map[] && IsLiveList(StoredItems(stored), live)
    requires IsListPlan(ItemRules(resulting), StoredItems(stored), live, rows, plan) && plan.creates == []
    ensures IsEmpty(plan)
  {
    NothingToWrite(Same, ItemRules(resulting), StoredItems(stored), live, rows, plan);
    PlannedUpdatesDiffer(ItemRules(resulting), StoredItems(stored), live, rows, plan);
    EmptyExactly(Same, StoredItems(stored), plan, [], StoredItems(stored));
  }

  lemma {:induction false} ListChangesExactly<F, V, E>(
    rules: Rules<F, V, E>, table: Table<V>, live: seq<Id>, rows: Option<seq<Row<F>>>, plan: Plan<V>, ids: seq<Id>,
    after: Table<V>)
    requires IsListPlan(rules, table, live, rows, plan) && IsWritten(Same, table, plan, ids, after)
    ensures IsEmpty(plan) <==> after == table
  {
    PlannedUpdatesDiffer(rules, table, live, rows, plan);
    EmptyExactly(Same, table, plan, ids, after);
  }

  lemma {:induction false} HasChangesExactly(plan: FullPlan)
    ensures HasChanges(plan) <==>
              || plan.event.Some? || !IsEmpty(plan.days) || !IsEmpty(plan.tickets) || !IsEmpty(plan.rsvpFields)
              || ProgramChanges(plan.program) || plan.hub.Some?
  {
  }

  /** The write is skipped exactly when it would leave the event as it is stored. */
  lemma {:induction false} WritesExactlyWhatChanges(
    env: Env, stored: StoredEvent, loaded: Loaded, request: Request, resulting: seq<ResultingDay>, plan: FullPlan,
    ids: NewIds, after: StoredEvent)
    requires Save(env, stored, loaded, request, resulting, plan, ids, after)
    requires ItemsNameDays(StoredItems(stored), stored.days)
    ensures HasChanges(plan) <==> after != stored
  {
    HasChangesExactly(plan);
    ListChangesExactly(DayRules(env.today), stored.days, loaded.days, request.days, plan.days, ids.days, after.days);
    ListChangesExactly(TicketRules(), stored.tickets, loaded.tickets, request.tickets, plan.tickets, ids.tickets,
                       after.tickets);
    ListChangesExactly(RsvpFieldRules(env.isList), stored.rsvpFields, loaded.rsvpFields, request.rsvpFields,
                       plan.rsvpFields, ids.rsvpFields, after.rsvpFields);
    ProgramChangesExactly(stored, loaded, resulting, request.program, plan.program, ids, after.program);
  }
}
