/** Writing a list's plan: archives, then changed rows, then new rows with ids
    the database makes up; and what the list is afterwards. */
module ListApply {
  import opened Prelude
  import opened ListPlan

  /** Plan and made-up ids that fit the table they are applied to. */
  ghost predicate WellFormed<V>(table: Table<V>, plan: Plan<V>, ids: seq<Id>) {
    && (forall id :: id in plan.archives ==> id in table && !table[id].isArchived)
    && (forall m :: 0 <= m < |plan.updates| ==>
          var id := plan.updates[m].id; id in table && !table[id].isArchived && id !in plan.archives)
    && (forall m, n :: 0 <= m < n < |plan.updates| ==> plan.updates[m].id != plan.updates[n].id)
    && FreshIds(table, ids, |plan.creates|)
  }

  ghost predicate FreshIds<V>(table: Table<V>, ids: seq<Id>, count: nat) {
    && |ids| == count
    && (forall m :: 0 <= m < |ids| ==> ids[m] !in table)
    && (forall m, n :: 0 <= m < n < |ids| ==> ids[m] != ids[n])
  }

  predicate IsUpdated<V>(updates: seq<Update<V>>, n: nat, id: Id)
    requires n <= |updates|
  {
    exists m :: 0 <= m < n && updates[m].id == id
  }

  /** `after` is `table` with the whole plan written. */
  ghost predicate Applied<V>(table: Table<V>, plan: Plan<V>, ids: seq<Id>, after: Table<V>)
    requires WellFormed(table, plan, ids)
  {
    && (forall id :: id in after <==> id in table || id in ids)
    && (forall id :: id in plan.archives ==> after[id] == table[id].(isArchived := true))
    && (forall m :: 0 <= m < |plan.updates| ==>
          after[plan.updates[m].id] == table[plan.updates[m].id].(value := plan.updates[m].value))
    && (forall m :: 0 <= m < |ids| ==> after[ids[m]] == Saved(plan.creates[m], false))
    && (forall id :: id in table && id !in plan.archives && !IsUpdated(plan.updates, |plan.updates|, id) ==>
          after[id] == table[id])
  }

  /** A kind of row as its repository keeps it. */
  class RowRepository<V> {
    var rows: Table<V>

    constructor (rows: Table<V>)
      ensures this.rows == rows
    {
      this.rows := rows;
    }

    method Apply(plan: Plan<V>, ids: seq<Id>)
      requires WellFormed(rows, plan, ids)
      modifies this
      ensures Applied(old(rows), plan, ids, rows)
    {
      ghost var before := rows;
      for n := 0 to |plan.archives|
        invariant rows.Keys == before.Keys
        invariant forall id :: id in before ==>
                    rows[id] == if id in plan.archives[..n] then before[id].(isArchived := true) else before[id]
      {
        var id := plan.archives[n];
        rows := rows[id := rows[id].(isArchived := true)];
      }
      WriteUpdates(plan.updates);
      WriteCreates(plan.creates, ids);
    }

    method WriteUpdates(updates: seq<Update<V>>)
      requires forall m :: 0 <= m < |updates| ==> updates[m].id in rows
      requires forall m, n :: 0 <= m < n < |updates| ==> updates[m].id != updates[n].id
      modifies this
      ensures rows.Keys == old(rows).Keys
      ensures forall m :: 0 <= m < |updates| ==>
                rows[updates[m].id] == old(rows)[updates[m].id].(value := updates[m].value)
      ensures forall id :: id in rows && !IsUpdated(updates, |updates|, id) ==> rows[id] == old(rows)[id]
    {
      for n := 0 to |updates|
        invariant rows.Keys == old(rows).Keys
        invariant forall m :: 0 <= m < n ==> rows[updates[m].id] == old(rows)[updates[m].id].(value := updates[m].value)
        invariant forall id :: id in rows && !IsUpdated(updates, n, id) ==> rows[id] == old(rows)[id]
      {
        var u := updates[n];
        assert !IsUpdated(updates, n, u.id);
        rows := rows[u.id := rows[u.id].(value := u.value)];
      }
    }

    method WriteCreates(creates: seq<V>, ids: seq<Id>)
      requires FreshIds(rows, ids, |creates|)
      modifies this
      ensures forall id :: id in rows <==> id in old(rows) || id in ids
      ensures forall m :: 0 <= m < |ids| ==> rows[ids[m]] == Saved(creates[m], false)
      ensures forall id :: id in old(rows) ==> rows[id] == old(rows)[id]
    {
      for n := 0 to |creates|
        invariant forall id :: id in rows <==> id in old(rows) || id in ids[..n]
        invariant forall m :: 0 <= m < n ==> rows[ids[m]] == Saved(creates[m], false)
        invariant forall id :: id in old(rows) ==> rows[id] == old(rows)[id]
      {
        rows := rows[ids[n] := Saved(creates[n], false)];
      }
    }
  }

  // ── What the plan is made of ──

  function NewRows<F>(rows: seq<Row<F>>, n: nat): nat
    requires n <= |rows|
  {
    if n == 0 then 0 else NewRows(rows, n - 1) + if rows[n - 1].id.None? then 1 else 0
  }

  /** The id position k has after the save: its own, or the one made up for it. */
  function IdAt<F>(rows: seq<Row<F>>, ids: seq<Id>, k: nat): Id
    requires k < |rows| && NewRows(rows, |rows|) == |ids|
  {
    NewRowsGrow(rows, k, |rows|);
    if rows[k].id.Some? then rows[k].id.value else ids[NewRows(rows, k)]
  }

  lemma {:induction false} NewRowsGrow<F>(rows: seq<Row<F>>, k: nat, n: nat)
    requires k <= n <= |rows|
    ensures NewRows(rows, k) <= NewRows(rows, n)
    ensures k < n && rows[k].id.None? ==> NewRows(rows, k) < NewRows(rows, n)
    decreases n - k
  {
    if k < n {
      NewRowsGrow(rows, k, n - 1);
    }
  }

  /** Which update, if any, the plan holds for each row. */
  ghost predicate UpdatesMatch<F, V, E>(rules: Rules<F, V, E>, table: Table<V>, rows: seq<Row<F>>, n: nat,
      updates: seq<Update<V>>)
    requires n <= |rows| && Named(table, rows)
  {
    && (forall k ::
          0 <= k < n && rows[k].id.Some? && Wanted(rules, table, rows, k) != Ok(table[rows[k].id.value].value) ==>
            IsUpdated(updates, |updates|, rows[k].id.value))
    && (forall m :: 0 <= m < |updates| ==> IsFrom(rules, table, rows, n, updates[m]))
    && (forall i, j :: 0 <= i < j < |updates| ==> updates[i].id != updates[j].id)
  }

  ghost predicate IsFrom<F, V, E>(rules: Rules<F, V, E>, table: Table<V>, rows: seq<Row<F>>, n: nat, u: Update<V>)
    requires n <= |rows| && Named(table, rows)
  {
    exists k :: 0 <= k < n && rows[k].id == Some(u.id) && Wanted(rules, table, rows, k) == Ok(u.value) &&
        u.value != table[u.id].value
  }

  lemma {:induction false} PlannedCount<F, V, E>(rules: Rules<F, V, E>, table: Table<V>, rows: seq<Row<F>>, n: nat)
    requires n <= |rows| && Named(table, rows) && Planned(rules, table, rows, n).Ok?
    ensures |Planned(rules, table, rows, n).value.creates| == NewRows(rows, n)
  {
    if n > 0 {
      PlannedCount(rules, table, rows, n - 1);
    }
  }

  lemma {:induction false} PlannedCreate<F, V, E>(rules: Rules<F, V, E>, table: Table<V>, rows: seq<Row<F>>, n: nat,
      k: nat)
    requires k < n <= |rows| && Named(table, rows) && Planned(rules, table, rows, n).Ok?
    ensures Wanted(rules, table, rows, k).Ok?
    ensures var creates := Planned(rules, table, rows, n).value.creates;
            rows[k].id.None? ==>
              NewRows(rows, k) < |creates| && Wanted(rules, table, rows, k) == Ok(creates[NewRows(rows, k)])
  {
    if k < n - 1 {
      PlannedCreate(rules, table, rows, n - 1, k);
    } else {
      PlannedCount(rules, table, rows, k);
    }
  }

  lemma {:induction false} PlannedUpdates<F, V, E>(
    rules: Rules<F, V, E>, table: Table<V>, live: seq<Id>, rows: seq<Row<F>>, n: nat)
    requires n <= |rows| && Named(table, rows) && Matched(rows, live) && Planned(rules, table, rows, n).Ok?
    ensures UpdatesMatch(rules, table, rows, n, Planned(rules, table, rows, n).value.updates)
  {
    if n > 0 {
      PlannedUpdates(rules, table, live, rows, n - 1);
      var before := Planned(rules, table, rows, n - 1).value.updates;
      var updates := Planned(rules, table, rows, n).value.updates;
      forall m | 0 <= m < |updates| ensures IsFrom(rules, table, rows, n, updates[m]) {
        if m < |before| {
          assert IsFrom(rules, table, rows, n - 1, before[m]);
        }
      }
      forall m | 0 <= m < |before| && rows[n - 1].id.Some? ensures before[m].id != rows[n - 1].id.value {
        assert IsFrom(rules, table, rows, n - 1, before[m]);
        var k :| 0 <= k < n - 1 && rows[k].id == Some(before[m].id);
        if rows[k].id == rows[n - 1].id {
          NamedTwiceIsNamedBefore(rows, live, k, n - 1);
        }
      }
      forall k | 0 <= k < n && rows[k].id.Some? && Wanted(rules, table, rows, k) != Ok(table[rows[k].id.value].value)
        ensures IsUpdated(updates, |updates|, rows[k].id.value)
      {
        if k < n - 1 {
          var m :| 0 <= m < |before| && before[m].id == rows[k].id.value;
          assert updates[m].id == rows[k].id.value;
        } else {
          assert updates[|before|].id == rows[k].id.value;
        }
      }
    }
  }

  lemma {:induction false} RemovedRows<F>(live: seq<Id>, rows: seq<Row<F>>, id: Id)
    ensures id in Removed(live, rows) <==> id in live && !NamedBefore(rows, |rows|, id)
  {
    if live != [] {
      RemovedRows(live[..|live| - 1], rows, id);
      assert live == live[..|live| - 1] + [live[|live| - 1]];
    }
  }

  // ── Reaching the request ──

  function MapPlan<V>(f: V -> V, plan: Plan<V>): Plan<V> {
    Plan(seq(|plan.creates|, n requires 0 <= n < |plan.creates| => f(plan.creates[n])),
         seq(|plan.updates|, n requires 0 <= n < |plan.updates| => Update(plan.updates[n].id,
             f(plan.updates[n].value))),
         plan.archives)
  }

  /** The table is what the request asked for: its live rows are the request's
      positions, one to one, and rows left out are archived as they were. */
  ghost predicate Reached<F, V, E>(
    f: V -> V, rules: Rules<F, V, E>, table: Table<V>, rows: seq<Row<F>>, ids: seq<Id>, after: Table<V>)
    requires Named(table, rows) && NewRows(rows, |rows|) == |ids|
  {
    && (forall k :: 0 <= k < |rows| ==>
          && Wanted(rules, table, rows, k).Ok?
          && IdAt(rows, ids, k) in after
          && after[IdAt(rows, ids, k)] == Saved(f(Wanted(rules, table, rows, k).value), false))
    && (forall j, k :: 0 <= j < k < |rows| ==> IdAt(rows, ids, j) != IdAt(rows, ids, k))
    && (forall id :: id in after && !after[id].isArchived ==> exists k :: 0 <= k < |rows| && IdAt(rows, ids, k) == id)
    && (forall id :: id in table && !NamedBefore(rows, |rows|, id) ==>
        id in after && after[id] == table[id].(isArchived := true))
  }

  lemma {:induction false} PlanFits<F, V, E>(f: V -> V, rules: Rules<F, V, E>, table: Table<V>, live: seq<Id>,
      rows: seq<Row<F>>, plan: Plan<V>, ids: seq<Id>)
    requires IsLiveList(table, live) && Named(table, rows) && IsPlan(rules, table, live, rows, plan)
    requires FreshIds(table, ids, |plan.creates|)
    ensures WellFormed(table, MapPlan(f, plan), ids) && NewRows(rows, |rows|) == |ids|
  {
    PlannedCount(rules, table, rows, |rows|);
    PlannedUpdates(rules, table, live, rows, |rows|);
    forall id ensures id in plan.archives <==> id in live && !NamedBefore(rows, |rows|, id) {
      RemovedRows(live, rows, id);
    }
    forall m | 0 <= m < |plan.updates|
      ensures plan.updates[m].id in live && NamedBefore(rows, |rows|, plan.updates[m].id) {
      assert IsFrom(rules, table, rows, |rows|, plan.updates[m]);
      var k :| 0 <= k < |rows| && rows[k].id == Some(plan.updates[m].id);
      assert !Offends(rows, live, k);
    }
  }

  /** `after` is this request's plan written to `table`. */
  ghost predicate Saves<F, V, E>(
    f: V -> V, rules: Rules<F, V, E>, table: Table<V>, live: seq<Id>, rows: seq<Row<F>>, plan: Plan<V>, ids: seq<Id>,
    after: Table<V>)
  {
    && IsLiveList(table, live) && Named(table, rows) && IsPlan(rules, table, live, rows, plan)
    && FreshIds(table, ids, |plan.creates|) && WellFormed(table, MapPlan(f, plan), ids)
    && Applied(table, MapPlan(f, plan), ids, after)
    && (forall id :: id in table ==> f(table[id].value) == table[id].value)
  }

  lemma {:induction false} ApplyingReachesTheRequest<F, V, E>(
    f: V -> V, rules: Rules<F, V, E>, table: Table<V>, live: seq<Id>, rows: seq<Row<F>>, plan: Plan<V>, ids: seq<Id>,
    after: Table<V>)
    requires Saves(f, rules, table, live, rows, plan, ids, after)
    ensures NewRows(rows, |rows|) == |ids| && Reached(f, rules, table, rows, ids, after)
  {
    PlanFits(f, rules, table, live, rows, plan, ids);
    forall k | 0 <= k < |rows|
      ensures Wanted(rules, table, rows, k).Ok? && IdAt(rows, ids, k) in after
      ensures after[IdAt(rows, ids, k)] == Saved(f(Wanted(rules, table, rows, k).value), false)
    {
      ReachedAt(f, rules, table, live, rows, plan, ids, after, k);
    }
    forall j, k | 0 <= j < k < |rows| ensures IdAt(rows, ids, j) != IdAt(rows, ids, k) {
      IdsDiffer(table, live, rows, ids, j, k);
    }
    forall id | id in after && !after[id].isArchived ensures exists k :: 0 <= k < |rows| && IdAt(rows, ids, k) == id {
      LiveIsAPosition(f, rules, table, live, rows, plan, ids, after, id);
    }
    forall id | id in table && !NamedBefore(rows, |rows|, id)
      ensures id in after && after[id] == table[id].(isArchived := true)
    {
      LeftOutIsArchived(f, rules, table, live, rows, plan, ids, after, id);
    }
  }

  lemma {:induction false} LeftOutIsArchived<F, V, E>(
    f: V -> V, rules: Rules<F, V, E>, table: Table<V>, live: seq<Id>, rows: seq<Row<F>>, plan: Plan<V>, ids: seq<Id>,
    after: Table<V>, id: Id)
    requires Saves(f, rules, table, live, rows, plan, ids, after) && id in table && !NamedBefore(rows, |rows|, id)
    ensures id in after && after[id] == table[id].(isArchived := true)
  {
    RemovedRows(live, rows, id);
    if id !in live {
      PlannedUpdates(rules, table, live, rows, |rows|);
      NotUpdated(rules, table, live, rows, plan.updates, id);
      SameUpdates(f, plan, id);
    }
  }

  lemma {:induction false} LiveIsAPosition<F, V, E>(
    f: V -> V, rules: Rules<F, V, E>, table: Table<V>, live: seq<Id>, rows: seq<Row<F>>, plan: Plan<V>, ids: seq<Id>,
    after: Table<V>, id: Id)
    requires Saves(f, rules, table, live, rows, plan, ids, after) && NewRows(rows, |rows|) == |ids|
    requires id in after && !after[id].isArchived
    ensures exists k :: 0 <= k < |rows| && IdAt(rows, ids, k) == id
  {
    if id in ids {
      var m :| 0 <= m < |ids| && ids[m] == id;
      NewRowAt(rows, m, |rows|);
      var k :| 0 <= k < |rows| && rows[k].id.None? && NewRows(rows, k) == m;
      assert IdAt(rows, ids, k) == id;
    } else {
      if !NamedBefore(rows, |rows|, id) {
        LeftOutIsArchived(f, rules, table, live, rows, plan, ids, after, id);
      }
      var k :| 0 <= k < |rows| && rows[k].id == Some(id);
      assert IdAt(rows, ids, k) == id;
    }
  }

  lemma {:induction false} SameUpdates<V>(f: V -> V, plan: Plan<V>, id: Id)
    ensures var mapped := MapPlan(f, plan).updates;
            IsUpdated(mapped, |mapped|, id) <==> IsUpdated(plan.updates, |plan.updates|, id)
  {
    var mapped := MapPlan(f, plan).updates;
    forall m | 0 <= m < |mapped| ensures mapped[m].id == plan.updates[m].id {
    }
    if IsUpdated(plan.updates, |plan.updates|, id) {
      var m :| 0 <= m < |plan.updates| && plan.updates[m].id == id;
      assert mapped[m].id == id;
    }
  }

  lemma {:induction false} NotUpdated<F, V, E>(rules: Rules<F, V, E>, table: Table<V>, live: seq<Id>, rows: seq<Row<F>>,
      updates: seq<Update<V>>, id: Id)
    requires Named(table, rows) && Matched(rows, live) && UpdatesMatch(rules, table, rows, |rows|, updates)
    requires id !in live || !NamedBefore(rows, |rows|, id)
    ensures !IsUpdated(updates, |updates|, id)
  {
    forall m | 0 <= m < |updates| ensures updates[m].id != id {
      assert IsFrom(rules, table, rows, |rows|, updates[m]);
      var k :| 0 <= k < |rows| && rows[k].id == Some(updates[m].id);
      assert !Offends(rows, live, k);
    }
  }

  lemma {:induction false} ReachedAt<F, V, E>(
    f: V -> V, rules: Rules<F, V, E>, table: Table<V>, live: seq<Id>, rows: seq<Row<F>>, plan: Plan<V>, ids: seq<Id>,
    after: Table<V>, k: nat)
    requires Saves(f, rules, table, live, rows, plan, ids, after)
    requires NewRows(rows, |rows|) == |ids| && k < |rows|
    ensures Wanted(rules, table, rows, k).Ok? && IdAt(rows, ids, k) in after
    ensures after[IdAt(rows, ids, k)] == Saved(f(Wanted(rules, table, rows, k).value), false)
  {
    PlannedCreate(rules, table, rows, |rows|, k);
    if rows[k].id.Some? {
      var id := rows[k].id.value;
      assert !Offends(rows, live, k) && NamedBefore(rows, |rows|, id);
      PlannedUpdates(rules, table, live, rows, |rows|);
      RemovedRows(live, rows, id);
      SameUpdates(f, plan, id);
      if IsUpdated(plan.updates, |plan.updates|, id) {
        var m :| 0 <= m < |plan.updates| && plan.updates[m].id == id;
        assert IsFrom(rules, table, rows, |rows|, plan.updates[m]);
        var j :| 0 <= j < |rows| && rows[j].id == Some(id) &&
            Wanted(rules, table, rows, j) == Ok(plan.updates[m].value);
        NamedTwiceIsNamedBefore(rows, live, j, k);
        assert after[MapPlan(f, plan).updates[m].id].value == f(plan.updates[m].value);
      }
    } else {
      NewRowsGrow(rows, k, |rows|);
    }
  }

  lemma {:induction false} IdsDiffer<F, V>(table: Table<V>, live: seq<Id>, rows: seq<Row<F>>, ids: seq<Id>, j: nat,
      k: nat)
    requires Named(table, rows) && Matched(rows, live) && FreshIds(table, ids, NewRows(rows, |rows|)) && j < k < |rows|
    ensures IdAt(rows, ids, j) != IdAt(rows, ids, k)
  {
    NewRowsGrow(rows, j, k);
    NewRowsGrow(rows, j, |rows|);
    NewRowsGrow(rows, k, |rows|);
    if rows[j].id.Some? && rows[j].id == rows[k].id {
      NamedTwiceIsNamedBefore(rows, live, j, k);
    }
  }

  /** Every made-up id is some new row's. */
  lemma {:induction false} NewRowAt<F>(rows: seq<Row<F>>, m: nat, n: nat)
    requires n <= |rows| && m < NewRows(rows, n)
    ensures exists k :: 0 <= k < n && rows[k].id.None? && NewRows(rows, k) == m
  {
    if rows[n - 1].id.Some? || m < NewRows(rows, n - 1) {
      NewRowAt(rows, m, n - 1);
    }
  }

  // ── Planning the same request again ──

  function WithIds<F>(rows: seq<Row<F>>, ids: seq<Id>): seq<Row<F>>
    requires NewRows(rows, |rows|) == |ids|
  {
    seq(|rows|, k requires 0 <= k < |rows| => Row(Some(IdAt(rows, ids, k)), rows[k].fields))
  }

  /** Rules that leave each reached row as it is find nothing to do. */
  lemma {:induction false} SecondPlanIsEmpty<F, V, E>(
    f: V -> V, rules: Rules<F, V, E>, table: Table<V>, rows: seq<Row<F>>, ids: seq<Id>, after: Table<V>,
    again: Rules<F, V, E>, live: seq<Id>)
    requires Named(table, rows) && NewRows(rows, |rows|) == |ids|
    requires Reached(f, rules, table, rows, ids, after) && IsLiveList(after, live)
    requires forall k :: 0 <= k < |rows| ==>
               var v := f(Wanted(rules, table, rows, k).value); again.merge(k, rows[k].fields, v) == Ok(v)
    ensures Named(after, WithIds(rows, ids))
    ensures IsPlan(again, after, live, WithIds(rows, ids), Plan([], [], []))
  {
    var named := WithIds(rows, ids);
    forall k | 0 <= k < |rows| ensures !Offends(named, live, k) {
      forall j | 0 <= j < k ensures named[j].id != named[k].id {
        assert IdAt(rows, ids, j) != IdAt(rows, ids, k);
      }
      assert after[IdAt(rows, ids, k)].isArchived == false;
    }
    NothingPlanned(again, after, named, |named|);
    forall id | id in live ensures NamedBefore(named, |named|, id) {
      var k :| 0 <= k < |rows| && IdAt(rows, ids, k) == id;
      assert named[k].id == Some(id);
    }
    NothingRemoved(live, named);
  }

  lemma {:induction false} NothingRemoved<F>(live: seq<Id>, rows: seq<Row<F>>)
    requires forall id :: id in live ==> NamedBefore(rows, |rows|, id)
    ensures Removed(live, rows) == []
  {
    if live != [] {
      NothingRemoved(live[..|live| - 1], rows);
    }
  }

  lemma {:induction false} NothingPlanned<F, V, E>(rules: Rules<F, V, E>, table: Table<V>, rows: seq<Row<F>>, n: nat)
    requires n <= |rows| && Named(table, rows)
    requires forall k :: 0 <= k < n ==>
               rows[k].id.Some? && Wanted(rules, table, rows, k) == Ok(table[rows[k].id.value].value)
    ensures Planned(rules, table, rows, n) == Ok(Plan([], [], []))
  {
    if n > 0 {
      NothingPlanned(rules, table, rows, n - 1);
    }
  }
}
