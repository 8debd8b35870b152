/** The part of a full event update every list shares: a submitted row names
    a saved row by id or is new, a saved row left out is archived, and a saved
    row is written only where it changed. */
module ListPlan {
  import opened Prelude

  type Id = string

  datatype Saved<V> = Saved(value: V, isArchived: bool)

  /** The event's rows of one kind, archived ones included. */
  type Table<V> = map<Id, Saved<V>>

  datatype Row<F> = Row(id: Option<Id>, fields: F)

  datatype Update<V> = Update(id: Id, value: V)

  datatype Plan<V> = Plan(creates: seq<V>, updates: seq<Update<V>>, archives: seq<Id>)

  datatype Refusal<E> = SameRowTwice(id: Id) | UnknownRow(id: Id) | Field(error: E)

  /** What one kind of row makes of its fields: a new row, or a saved one as
      the request leaves it. The position in the list is a row's order. */
  datatype Rules<!F, !V, !E> = Rules(create: (nat, F) -> Result<V, E>, merge: (nat, F, V) -> Result<V, E>)

  ghost predicate IsLiveList<V>(table: Table<V>, live: seq<Id>) {
    && (forall id :: id in live <==> id in table && !table[id].isArchived)
    && (forall m, n :: 0 <= m < n < |live| ==> live[m] != live[n])
  }

  // ── Matching rows to saved rows ──

  predicate NamedBefore<F>(rows: seq<Row<F>>, n: nat, id: Id)
    requires n <= |rows|
  {
    exists m :: 0 <= m < n && rows[m].id == Some(id)
  }

  predicate Offends<F>(rows: seq<Row<F>>, live: seq<Id>, n: nat)
    requires n < |rows|
  {
    rows[n].id.Some? && (NamedBefore(rows, n, rows[n].id.value) || rows[n].id.value !in live)
  }

  /** Each id names a saved row, once. */
  predicate Matched<F>(rows: seq<Row<F>>, live: seq<Id>) {
    forall n :: 0 <= n < |rows| ==> !Offends(rows, live, n)
  }

  /** The first row whose id repeats an earlier one's or names no live row, and which of the two. */
  ghost predicate IsMatchRefusal<F, E>(rows: seq<Row<F>>, live: seq<Id>, refusal: Refusal<E>) {
    exists n :: 0 <= n < |rows| && rows[n].id.Some?
      && (forall m :: 0 <= m < n && rows[m].id.Some? ==> rows[m].id.value in live)
      && (forall m, k :: 0 <= m < k < n && rows[m].id.Some? ==> rows[k].id != rows[m].id)
      && (match refusal
          case SameRowTwice(id) => rows[n].id == Some(id) && exists m :: 0 <= m < n && rows[m].id == Some(id)
          case UnknownRow(id) =>
            && rows[n].id == Some(id) && id !in live
            && forall m :: 0 <= m < n ==> rows[m].id != rows[n].id
          case Field(_) => false)
  }

  /** The first row that offends decides, and repeating comes before not existing. */
  method MatchSavedRows<F, E>(rows: seq<Row<F>>, live: seq<Id>) returns (refusal: Option<Refusal<E>>)
    ensures refusal.None? <==> Matched(rows, live)
    ensures refusal.Some? ==> IsMatchRefusal(rows, live, refusal.value)
  {
    var seen: set<Id> := {};
    for n := 0 to |rows|
      invariant forall id :: id in seen <==> NamedBefore(rows, n, id)
      invariant forall m :: 0 <= m < n ==> !Offends(rows, live, m)
    {
      if rows[n].id.Some? {
        var id := rows[n].id.value;
        if id in seen {
          assert Offends(rows, live, n);
          ClearBefore(rows, live, n);
          return Some(SameRowTwice(id));
        }
        seen := seen + {id};
        if id !in live {
          assert Offends(rows, live, n);
          ClearBefore(rows, live, n);
          return Some(UnknownRow(id));
        }
      }
    }
    return None;
  }

  lemma {:induction false} ClearBefore<F>(rows: seq<Row<F>>, live: seq<Id>, n: nat)
    requires n <= |rows| && forall m :: 0 <= m < n ==> !Offends(rows, live, m)
    ensures forall m :: 0 <= m < n && rows[m].id.Some? ==> rows[m].id.value in live
    ensures forall m, k :: 0 <= m < k < n && rows[m].id.Some? ==> rows[k].id != rows[m].id
  {
    forall m, k | 0 <= m < k < n && rows[m].id.Some? ensures rows[k].id != rows[m].id {
      assert !Offends(rows, live, m) && !Offends(rows, live, k);
    }
    forall m | 0 <= m < n && rows[m].id.Some? ensures rows[m].id.value in live {
      assert !Offends(rows, live, m);
    }
  }

  lemma {:induction false} NamedTwiceIsNamedBefore<F>(rows: seq<Row<F>>, live: seq<Id>, m: nat, n: nat)
    requires Matched(rows, live) && m < |rows| && n < |rows| && rows[m].id.Some? && rows[m].id == rows[n].id
    ensures m == n
  {
    assert !Offends(rows, live, m) && !Offends(rows, live, n);
  }

  // ── The plan ──

  /** What the request asks position n to be. */
  function Wanted<F, V, E>(rules: Rules<F, V, E>, table: Table<V>, rows: seq<Row<F>>, n: nat): Result<V, E>
    requires n < |rows|
    requires rows[n].id.Some? ==> rows[n].id.value in table
  {
    if rows[n].id.None? then rules.create(n, rows[n].fields)
    else rules.merge(n, rows[n].fields, table[rows[n].id.value].value)
  }

  ghost predicate Named<F, V>(table: Table<V>, rows: seq<Row<F>>) {
    forall n :: 0 <= n < |rows| && rows[n].id.Some? ==> rows[n].id.value in table
  }

  /** Creates and updates for the first n rows. */
  ghost function Planned<F, V, E>(rules: Rules<F, V, E>, table: Table<V>, rows: seq<Row<F>>, n: nat): Result<Plan<V>, E>
    requires n <= |rows| && Named(table, rows)
  {
    if n == 0 then Ok(Plan([], [], []))
    else
      var before := Planned(rules, table, rows, n - 1);
      var wanted := Wanted(rules, table, rows, n - 1);
      if before.Err? then before
      else if wanted.Err? then Err(wanted.error)
      else if rows[n - 1].id.None? then Ok(before.value.(creates := before.value.creates + [wanted.value]))
      else if wanted.value == table[rows[n - 1].id.value].value then before
      else Ok(before.value.(updates := before.value.updates + [Update(rows[n - 1].id.value, wanted.value)]))
  }

  /** The saved rows the request leaves out, in the saved order. */
  ghost function Removed<F>(live: seq<Id>, rows: seq<Row<F>>): seq<Id> {
    if live == [] then []
    else Removed(live[..|live| - 1], rows)
         + if NamedBefore(rows, |rows|, live[|live| - 1]) then [] else [live[|live| - 1]]
  }

  ghost predicate IsPlan<F, V, E>(rules: Rules<F, V, E>, table: Table<V>, live: seq<Id>, rows: seq<Row<F>>,
      plan: Plan<V>)
    requires Named(table, rows)
  {
    && Matched(rows, live)
    && Planned(rules, table, rows, |rows|) == Ok(plan.(archives := []))
    && plan.archives == Removed(live, rows)
  }

  /** The first row its rules refuse, and what for. */
  ghost predicate IsFirstRefused<F, V, E>(rules: Rules<F, V, E>, table: Table<V>, rows: seq<Row<F>>, e: E)
    requires Named(table, rows)
  {
    exists n :: 0 <= n < |rows| && Wanted(rules, table, rows, n) == Err(e)
      && forall m :: 0 <= m < n ==> Wanted(rules, table, rows, m).Ok?
  }

  method PlanRows<F, V(==), E>(rules: Rules<F, V, E>, table: Table<V>, live: seq<Id>, rows: seq<Row<F>>)
    returns (r: Result<Plan<V>, Refusal<E>>)
    requires IsLiveList(table, live)
    ensures r.Ok? ==> Named(table, rows) && IsPlan(rules, table, live, rows, r.value)
    ensures r.Err? && !r.error.Field? ==> !Matched(rows, live) && IsMatchRefusal(rows, live, r.error)
    ensures r.Err? && r.error.Field? ==>
              && Matched(rows, live) && Named(table, rows)
              && Planned(rules, table, rows, |rows|) == Err(r.error.error)
              && IsFirstRefused(rules, table, rows, r.error.error)
  {
    var refusal: Option<Refusal<E>> := MatchSavedRows(rows, live);
    if refusal.Some? {
      return Err(refusal.value);
    }
    forall n | 0 <= n < |rows| && rows[n].id.Some? ensures rows[n].id.value in table {
      assert !Offends(rows, live, n);
    }
    var creates: seq<V> := [];
    var updates: seq<Update<V>> := [];
    for n := 0 to |rows|
      invariant Planned(rules, table, rows, n) == Ok(Plan(creates, updates, []))
      invariant forall m :: 0 <= m < n ==> Wanted(rules, table, rows, m).Ok?
    {
      var wanted := Wanted(rules, table, rows, n);
      if wanted.Err? {
        RefusalSticks(rules, table, rows, n + 1);
        return Err(Field(wanted.error));
      }
      if rows[n].id.None? {
        creates := creates + [wanted.value];
      } else if wanted.value != table[rows[n].id.value].value {
        updates := updates + [Update(rows[n].id.value, wanted.value)];
      }
    }
    var archives: seq<Id> := [];
    for n := 0 to |live|
      invariant archives == Removed(live[..n], rows)
    {
      assert live[..n + 1][..n] == live[..n];
      if !NamedBefore(rows, |rows|, live[n]) {
        archives := archives + [live[n]];
      }
    }
    assert live[..|live|] == live;
    return Ok(Plan(creates, updates, archives));
  }

  lemma {:induction false} RefusalSticks<F, V, E>(rules: Rules<F, V, E>, table: Table<V>, rows: seq<Row<F>>, n: nat)
    requires n <= |rows| && Named(table, rows) && Planned(rules, table, rows, n).Err?
    ensures Planned(rules, table, rows, |rows|) == Planned(rules, table, rows, n)
    decreases |rows| - n
  {
    if n < |rows| {
      RefusalSticks(rules, table, rows, n + 1);
    }
  }
}
