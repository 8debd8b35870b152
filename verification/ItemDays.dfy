/** After a full event update, program items start on the days they are filed under. */
module ItemDays {
  import opened Prelude
  import opened ListPlan
  import opened ListApply
  import opened DayRelabel
  import opened FullUpdateRules
  import opened FullUpdate
  import opened FullUpdateFields
  import opened FullUpdateChanges

  /** The nth of the save's days is saved as this one: same date, and where that was not changed, the date it had. */
  predicate IsSavedAs(days: Days, after: Days, day: ResultingDay, newDayIds: seq<Id>, id: Id) {
    && (match day.ref
        case SavedDay(saved) => saved == id
        case CreatedDay(index) => index < |newDayIds| && newDayIds[index] == id)
    && id in after && after[id].value.date == day.date
    && (!day.dateChanged ==> id in days && days[id].value.date == day.date)
  }

  /** The id the nth of the save's days has. */
  ghost function DayIdAt(live: seq<Id>, rows: Option<seq<Row<DayFields>>>, newDayIds: seq<Id>, n: nat): Id
    requires if rows.Some? then n < |rows.value| && NewRows(rows.value, |rows.value|) == |newDayIds| else n < |live|
  {
    if rows.Some? then IdAt(rows.value, newDayIds, n) else live[n]
  }

  lemma {:induction false} PositionIsSaved(
    env: Env, days: Days, live: seq<Id>, rows: Option<seq<Row<DayFields>>>, newDayIds: seq<Id>, after: Days,
    resulting: seq<ResultingDay>, n: nat)
    requires ListReached(Same, DayRules(env.today), days, rows, newDayIds, after)
    requires AreResultingDays(env, days, live, rows, resulting) && n < |resulting|
    ensures rows.Some? ==> n < |rows.value|
    ensures rows.None? ==> n < |live|
    ensures IsSavedAs(days, after, resulting[n], newDayIds, DayIdAt(live, rows, newDayIds, n))
  {
    if rows.Some? {
      NewRowsGrow(rows.value, n, |rows.value|);
    }
  }

  /** Every live day is one of the save's days. */
  lemma {:induction false} LiveIsAPosition(
    env: Env, days: Days, live: seq<Id>, rows: Option<seq<Row<DayFields>>>, newDayIds: seq<Id>, after: Days,
    resulting: seq<ResultingDay>, id: Id) returns (n: nat)
    requires IsLiveList(days, live) && ListReached(Same, DayRules(env.today), days, rows, newDayIds, after)
    requires AreResultingDays(env, days, live, rows, resulting) && id in after && !after[id].isArchived
    ensures n < |resulting| && IsSavedAs(days, after, resulting[n], newDayIds, id)
  {
    if rows.Some? {
      n := LiveDayIsAPosition(DayRules(env.today), days, rows.value, newDayIds, after, id);
    } else {
      n :| 0 <= n < |live| && live[n] == id;
    }
    PositionIsSaved(env, days, live, rows, newDayIds, after, resulting, n);
  }

  /** The item starts within the day, or neither it nor the day's date is other than it was. */
  predicate KeepsToDay(stored: Option<Item>, item: Item, before: Days, after: Days, id: Id)
    requires id in after
  {
    || FallsOn(item.startTime, after[id].value.date)
    || (stored.Some? && item.startTime == stored.value.startTime && item.day == stored.value.day
        && id in before && before[id].value.date == after[id].value.date)
  }

  lemma {:induction false} MadeItemKeepsToDay(
    days: seq<ResultingDay>, order: nat, f: ItemFields, stored: Option<Item>, newDayIds: seq<Id>, before: Days,
    after: Days, n: nat, id: Id)
    requires MadeItem(days, order, f, stored).Ok? && n < |days|
    requires IsItsDay(days, f.dayIndex, DayOfItem(stored), n) && IsSavedAs(before, after, days[n], newDayIds, id)
    requires forall m :: 0 <= m < |newDayIds| ==> newDayIds[m] !in before
    ensures KeepsToDay(stored, WithDayId(newDayIds, MadeItem(days, order, f, stored).value), before, after, id)
  {
    ItemRefusedExactly(days, order, f, stored);
    ItemIsAsAsked(days, order, f, stored);
    assert !ItemFault(days, f, stored, NotOnItsDay);
  }

  /** The item's day, once saved, is the one of the save's days it was put on. */
  lemma {:induction false} ItsDayIsFound(
    days: seq<ResultingDay>, order: nat, f: ItemFields, stored: Option<Item>, newDayIds: seq<Id>, before: Days,
    after: Days, n: nat, id: Id) returns (m: nat)
    requires MadeItem(days, order, f, stored).Ok?
    requires WithDayId(newDayIds, MadeItem(days, order, f, stored).value).day == Some(SavedDay(id))
    requires DayOfItem(stored).Some? ==> DayOfItem(stored).value.SavedDay? && DayOfItem(stored).value.id in before
    requires n < |days| && IsSavedAs(before, after, days[n], newDayIds, id)
    requires forall k :: 0 <= k < |newDayIds| ==> newDayIds[k] !in before
    ensures m < |days| && IsItsDay(days, f.dayIndex, DayOfItem(stored), m)
    ensures Some(days[m].ref) == MadeItem(days, order, f, stored).value.day
  {
    ItemIsAsAsked(days, order, f, stored);
    if f.dayIndex.Given? {
      m := f.dayIndex.value.value;
    } else {
      FoundDayIsFirst(days, SavedDay(id));
      assert days[n].ref == SavedDay(id);
      m :| 0 <= m < |days| && IsItsDay(days, Absent, Some(SavedDay(id)), m);
    }
  }

  lemma {:induction false} MadeOnLiveDay(
    env: Env, stored: StoredEvent, live: seq<Id>, dayRows: Option<seq<Row<DayFields>>>, newDayIds: seq<Id>, after: Days,
    resulting: seq<ResultingDay>, order: nat, f: ItemFields, was: Option<Item>, id: Id)
    requires IsLiveList(stored.days, live)
    requires ListReached(Same, DayRules(env.today), stored.days, dayRows, newDayIds, after)
    requires AreResultingDays(env, stored.days, live, dayRows, resulting)
    requires forall k :: 0 <= k < |newDayIds| ==> newDayIds[k] !in stored.days
    requires DayOfItem(was).Some? ==> DayOfItem(was).value.SavedDay? && DayOfItem(was).value.id in stored.days
    requires MadeItem(resulting, order, f, was).Ok? && id in after && !after[id].isArchived
    requires WithDayId(newDayIds, MadeItem(resulting, order, f, was).value).day == Some(SavedDay(id))
    ensures KeepsToDay(was, WithDayId(newDayIds, MadeItem(resulting, order, f, was).value), stored.days, after, id)
  {
    var n := LiveIsAPosition(env, stored.days, live, dayRows, newDayIds, after, resulting, id);
    var m := ItsDayIsFound(resulting, order, f, was, newDayIds, stored.days, after, n, id);
    PositionIsSaved(env, stored.days, live, dayRows, newDayIds, after, resulting, m);
    MadeItemKeepsToDay(resulting, order, f, was, newDayIds, stored.days, after, m, id);
  }

  /** After a save that sends items, each of them that is under a live day starts within
      that day, unless its start, its day and the day's date are all what they were. */
  lemma {:induction false} ItemsKeepToTheirDays(
    env: Env, stored: StoredEvent, loaded: Loaded, request: Request, resulting: seq<ResultingDay>, plan: FullPlan,
    ids: NewIds, after: StoredEvent, k: nat, id: Id)
    requires Save(env, stored, loaded, request, resulting, plan, ids, after)
    requires ItemsNameDays(StoredItems(stored), stored.days)
    requires request.program.Some? && request.program.value.items.Some? && k < |request.program.value.items.value|
    requires id in after.days && !after.days[id].isArchived
    ensures var rows := request.program.value.items.value;
            && NewRows(rows, |rows|) == |ids.items| && IdAt(rows, ids.items, k) in StoredItems(after)
            && var item := StoredItems(after)[IdAt(rows, ids.items, k)].value;
               item.day == Some(SavedDay(id)) ==>
                 KeepsToDay(StoredAt(StoredItems(stored), rows[k].id), item, stored.days, after.days, id)
  {
    var rows := request.program.value.items.value;
    SavingReachesTheRequest(env, stored, loaded, request, resulting, plan, ids, after);
    ItemReached(stored, request, resulting, ids, after, k);
    var was := StoredAt(StoredItems(stored), rows[k].id);
    var item := StoredItems(after)[IdAt(rows, ids.items, k)].value;
    if item.day == Some(SavedDay(id)) {
      MadeOnLiveDay(env, stored, loaded.days, request.days, ids.days, after.days, resulting, k, rows[k].fields, was,
                    id);
    }
  }

  lemma {:induction false} ItemReached(stored: StoredEvent, request: Request, resulting: seq<ResultingDay>, ids: NewIds,
      after: StoredEvent, k: nat)
    requires request.program.Some? && request.program.value.items.Some? && k < |request.program.value.items.value|
    requires ListReached(FillDayIds(ids.days), ItemRules(resulting), StoredItems(stored), request.program.value.items,
                         ids.items, StoredItems(after))
    ensures var rows := request.program.value.items.value;
            var was := StoredAt(StoredItems(stored), rows[k].id);
            && NewRows(rows, |rows|) == |ids.items| && IdAt(rows, ids.items, k) in StoredItems(after)
            && MadeItem(resulting, k, rows[k].fields, was).Ok?
            && StoredItems(after)[IdAt(rows, ids.items, k)].value ==
               WithDayId(ids.days, MadeItem(resulting, k, rows[k].fields, was).value)
  {
    var rows := request.program.value.items.value;
    assert Wanted(ItemRules(resulting), StoredItems(stored), rows, k).Ok?;
  }
}
