/** Writing a full event update's days: archives, then a placeholder for every
    relabelled day, then the changed days, then the new ones, under a unique
    (event, label) index that counts archived rows too. */
module DayRelabel {
  import opened Prelude
  import opened ListPlan
  import opened ListApply

  type Label = string

  /** A venue's columns are nullable for days older than they are. */
  datatype Venue = Venue(
    location: Option<string>, address: Option<string>, latitude: Option<real>, longitude: Option<real>)

  /** `date` is a UTC calendar day; the times are instants. */
  datatype Day = Day(dayLabel: Label, date: int, startTime: Option<Time>, endTime: Option<Time>, venue: Venue)

  type Days = Table<Day>

  // ── One write, and the index ──

  datatype Write =
    | ArchiveDay(id: Id)
    | Relabel(id: Id, dayLabel: Label, venue: Venue)
    | RewriteDay(id: Id, day: Day)
    | AddDay(id: Id, day: Day)

  ghost predicate UniqueLabels(days: Days) {
    forall a, b :: a in days && b in days && a != b ==> days[a].value.dayLabel != days[b].value.dayLabel
  }

  predicate HeldByAnother(days: Days, id: Id, dayLabel: Label) {
    exists other :: other in days && other != id && days[other].value.dayLabel == dayLabel
  }

  predicate Refused(days: Days, w: Write) {
    match w
    case ArchiveDay(_) => false
    case Relabel(id, dayLabel, _) => HeldByAnother(days, id, dayLabel)
    case RewriteDay(id, day) => HeldByAnother(days, id, day.dayLabel)
    case AddDay(id, day) => HeldByAnother(days, id, day.dayLabel)
  }

  /** Rows are never deleted, so the row a write names is there. */
  function Perform(days: Days, w: Write): Days {
    match w
    case AddDay(id, day) => days[id := Saved(day, false)]
    case _ =>
      if w.id !in days then days
      else
        var row := days[w.id];
        days[w.id := match w
                     case ArchiveDay(_) => row.(isArchived := true)
                     case Relabel(_, dayLabel, venue) => row.(value := row.value.(dayLabel := dayLabel, venue := venue))
                     case RewriteDay(_, day) => row.(value := day)
                     case AddDay(_, _) => row]
  }

  /** The transaction: stops at the first refused write, whose label it reports. */
  function Run(days: Days, writes: seq<Write>): Result<Days, Label>
    decreases |writes|
  {
    if writes == [] then Ok(days)
    else if Refused(days, writes[0]) then Err(ReportedLabel(writes[0]))
    else Run(Perform(days, writes[0]), writes[1..])
  }

  /** The `dayLabel` the loops keep for the refusal's words: none yet while placeholders are written. */
  function ReportedLabel(w: Write): Label {
    match w
    case RewriteDay(_, day) => day.dayLabel
    case AddDay(_, day) => day.dayLabel
    case _ => ""
  }

  // ── The writes of a plan, in order ──

  const PLACEHOLDER_PREFIX: string := "\U{2063}relabel:"

  function Placeholder(id: Id): Label {
    PLACEHOLDER_PREFIX + id
  }

  predicate IsPlaceholder(dayLabel: Label) {
    PLACEHOLDER_PREFIX <= dayLabel
  }

  predicate Relabels(rows: Days, u: Update<Day>) {
    u.id in rows && u.value.dayLabel != rows[u.id].value.dayLabel
  }

  function CreateWrites(plan: Plan<Day>, ids: seq<Id>, n: nat): seq<Write>
    requires n <= |plan.creates| == |ids|
    decreases |plan.creates| - n
  {
    if n == |plan.creates| then [] else [AddDay(ids[n], plan.creates[n])] + CreateWrites(plan, ids, n + 1)
  }

  function UpdateWrites(plan: Plan<Day>, ids: seq<Id>, n: nat): seq<Write>
    requires n <= |plan.updates| && |plan.creates| == |ids|
    decreases |plan.updates| - n
  {
    if n == |plan.updates| then CreateWrites(plan, ids, 0)
    else [RewriteDay(plan.updates[n].id, plan.updates[n].value)] + UpdateWrites(plan, ids, n + 1)
  }

  function PlaceholderWrites(rows: Days, plan: Plan<Day>, ids: seq<Id>, n: nat): seq<Write>
    requires n <= |plan.updates| && |plan.creates| == |ids|
    decreases |plan.updates| - n
  {
    if n == |plan.updates| then UpdateWrites(plan, ids, 0)
    else
      var u := plan.updates[n];
      var rest := PlaceholderWrites(rows, plan, ids, n + 1);
      if Relabels(rows, u) then [Relabel(u.id, Placeholder(u.id), u.value.venue)] + rest else rest
  }

  function ArchiveWrites(rows: Days, plan: Plan<Day>, ids: seq<Id>, n: nat): seq<Write>
    requires n <= |plan.archives| && |plan.creates| == |ids|
    decreases |plan.archives| - n
  {
    if n == |plan.archives| then PlaceholderWrites(rows, plan, ids, 0)
    else [ArchiveDay(plan.archives[n])] + ArchiveWrites(rows, plan, ids, n + 1)
  }

  function Writes(rows: Days, plan: Plan<Day>, ids: seq<Id>): seq<Write>
    requires |plan.creates| == |ids|
  {
    ArchiveWrites(rows, plan, ids, 0)
  }

  class EventDayRepository {
    var days: Days

    constructor (days: Days)
      ensures this.days == days
    {
      this.days := days;
    }

    method Write(w: Write) returns (refused: bool)
      modifies this
      ensures refused == Refused(old(days), w)
      ensures days == if refused then old(days) else Perform(old(days), w)
      ensures refused <==> !w.ArchiveDay? && exists other ::
                && other in old(days) && other != w.id
                && old(days)[other].value.dayLabel == if w.Relabel? then w.dayLabel else w.day.dayLabel
      ensures forall other :: other in old(days) && other != w.id ==> other in days && days[other] == old(days)[other]
      ensures !refused && w.id in old(days) ==>
                && w.id in days
                && (w.ArchiveDay? ==> days[w.id] == Saved(old(days)[w.id].value, true))
                && (w.Relabel? ==>
                      days[w.id] == old(days)[w.id].(value :=
                        old(days)[w.id].value.(dayLabel := w.dayLabel, venue := w.venue)))
                && (w.RewriteDay? ==> days[w.id] == Saved(w.day, old(days)[w.id].isArchived))
      ensures !refused && w.AddDay? ==> days == old(days)[w.id := Saved(w.day, false)]
      ensures !w.AddDay? ==> days.Keys == old(days).Keys
    {
      refused := Refused(days, w);
      if !refused {
        days := Perform(days, w);
      }
    }

    /** The days part of apply: any refusal rolls every write back. */
    method Apply(plan: Plan<Day>, ids: seq<Id>) returns (refusal: Option<Label>)
      requires |plan.creates| == |ids|
      modifies this
      ensures var r := Run(old(days), Writes(old(days), plan, ids));
              if r.Ok? then refusal == None && days == r.value else refusal == Some(r.error) && days == old(days)
    {
      var rows := days;
      ghost var run := Run(rows, Writes(rows, plan, ids));
      var refused;
      for n := 0 to |plan.archives|
        invariant run == Run(days, ArchiveWrites(rows, plan, ids, n))
      {
        refused := Write(ArchiveDay(plan.archives[n]));
      }
      for n := 0 to |plan.updates|
        invariant run == Run(days, PlaceholderWrites(rows, plan, ids, n))
      {
        var u := plan.updates[n];
        if Relabels(rows, u) {
          refused := Write(Relabel(u.id, Placeholder(u.id), u.value.venue));
          if refused {
            days := rows;
            return Some("");
          }
        }
      }
      for n := 0 to |plan.updates|
        invariant run == Run(days, UpdateWrites(plan, ids, n))
      {
        var u := plan.updates[n];
        refused := Write(RewriteDay(u.id, u.value));
        if refused {
          days := rows;
          return Some(u.value.dayLabel);
        }
      }
      for n := 0 to |plan.creates|
        invariant run == Run(days, CreateWrites(plan, ids, n))
      {
        refused := Write(AddDay(ids[n], plan.creates[n]));
        if refused {
          days := rows;
          return Some(plan.creates[n].dayLabel);
        }
      }
      return None;
    }
  }

  // ── When the labels the save leaves behind are distinct ──

  /** A live day the save neither archives nor changes. */
  ghost predicate Kept(rows: Days, plan: Plan<Day>, id: Id) {
    id in rows && !rows[id].isArchived && id !in plan.archives && !IsUpdated(plan.updates, |plan.updates|, id)
  }

  /** The live labels after the save are pairwise distinct, and no label at all is a placeholder. */
  ghost predicate ResultingLabelsOk(rows: Days, plan: Plan<Day>) {
    && (forall m, n :: 0 <= m < n < |plan.updates| ==> plan.updates[m].value.dayLabel != plan.updates[n].value.dayLabel)
    && (forall m, n :: 0 <= m < n < |plan.creates| ==> plan.creates[m].dayLabel != plan.creates[n].dayLabel)
    && (forall m, n :: 0 <= m < |plan.updates| && 0 <= n < |plan.creates| ==>
        plan.updates[m].value.dayLabel != plan.creates[n].dayLabel)
    && (forall id, m :: Kept(rows, plan, id) && 0 <= m < |plan.updates| ==>
        rows[id].value.dayLabel != plan.updates[m].value.dayLabel)
    && (forall id, m :: Kept(rows, plan, id) && 0 <= m < |plan.creates| ==>
        rows[id].value.dayLabel != plan.creates[m].dayLabel)
    && (forall id :: id in rows ==> !IsPlaceholder(rows[id].value.dayLabel))
    && (forall m :: 0 <= m < |plan.updates| ==> !IsPlaceholder(plan.updates[m].value.dayLabel))
  }

  predicate Retired(rows: Days, plan: Plan<Day>, id: Id) {
    id in rows && (rows[id].isArchived || id in plan.archives)
  }

  /** A label an archived row holds: archived before, or by this save. */
  predicate Taken(rows: Days, plan: Plan<Day>, dayLabel: Label) {
    exists id :: id in rows && Retired(rows, plan, id) && rows[id].value.dayLabel == dayLabel
  }

  ghost predicate UpdatesClear(rows: Days, plan: Plan<Day>, n: nat) {
    forall m :: n <= m < |plan.updates| && Relabels(rows, plan.updates[m]) ==>
        !Taken(rows, plan, plan.updates[m].value.dayLabel)
  }

  ghost predicate CreatesClear(rows: Days, plan: Plan<Day>, n: nat) {
    forall m :: n <= m < |plan.creates| ==> !Taken(rows, plan, plan.creates[m].dayLabel)
  }

  /** No changed or new day asks for a label an archived day holds. */
  ghost predicate NoClash(rows: Days, plan: Plan<Day>) {
    UpdatesClear(rows, plan, 0) && CreatesClear(rows, plan, 0)
  }

  ghost predicate Fits(rows: Days, plan: Plan<Day>, ids: seq<Id>) {
    WellFormed(rows, plan, ids) && UniqueLabels(rows) && ResultingLabelsOk(rows, plan)
  }

  // ── The rows between two writes ──

  function AfterArchiving(rows: Days, plan: Plan<Day>, id: Id, n: nat): Saved<Day>
    requires id in rows && n <= |plan.archives|
  {
    rows[id].(isArchived := rows[id].isArchived || id in plan.archives[..n])
  }

  ghost predicate Archiving(rows: Days, plan: Plan<Day>, n: nat, days: Days) {
    && n <= |plan.archives| && days.Keys == rows.Keys
    && (forall id :: id in rows ==> days[id] == AfterArchiving(rows, plan, id, n))
  }

  /** Rows the save does not change are as archiving left them. */
  ghost predicate RestSettled(rows: Days, plan: Plan<Day>, days: Days) {
    && rows.Keys <= days.Keys
    && (forall id :: id in rows && !IsUpdated(plan.updates, |plan.updates|, id) ==>
          days[id] == AfterArchiving(rows, plan, id, |plan.archives|))
  }

  function StagedLabel(rows: Days, u: Update<Day>): Label
    requires u.id in rows
  {
    if Relabels(rows, u) then Placeholder(u.id) else rows[u.id].value.dayLabel
  }

  ghost predicate Staging(rows: Days, plan: Plan<Day>, n: nat, days: Days)
    requires forall m :: 0 <= m < |plan.updates| ==> plan.updates[m].id in rows
  {
    && n <= |plan.updates| && days.Keys == rows.Keys && RestSettled(rows, plan, days)
    && (forall m :: 0 <= m < |plan.updates| ==>
          var u := plan.updates[m];
          && !days[u.id].isArchived
          && days[u.id].value.dayLabel == if m < n then StagedLabel(rows, u) else rows[u.id].value.dayLabel)
  }

  ghost predicate Updating(rows: Days, plan: Plan<Day>, n: nat, days: Days)
    requires forall m :: 0 <= m < |plan.updates| ==> plan.updates[m].id in rows
  {
    && n <= |plan.updates| && days.Keys == rows.Keys && RestSettled(rows, plan, days)
    && (forall m :: 0 <= m < |plan.updates| ==>
          var u := plan.updates[m];
          && !days[u.id].isArchived
          && (m < n ==> days[u.id].value == u.value)
          && (m >= n ==> days[u.id].value.dayLabel == StagedLabel(rows, u)))
  }

  ghost predicate Creating(rows: Days, plan: Plan<Day>, ids: seq<Id>, n: nat, days: Days)
    requires |ids| == |plan.creates|
    requires forall m :: 0 <= m < |plan.updates| ==> plan.updates[m].id in rows
  {
    && n <= |ids| && RestSettled(rows, plan, days)
    && (forall id :: id in days <==> id in rows || id in ids[..n])
    && (forall m :: 0 <= m < |plan.updates| ==> days[plan.updates[m].id] == Saved(plan.updates[m].value, false))
    && (forall m :: 0 <= m < n ==> days[ids[m]] == Saved(plan.creates[m], false))
  }

  // ── Which writes are refused ──

  lemma {:induction false} PlaceholdersDiffer(a: Id, b: Id)
    requires Placeholder(a) == Placeholder(b)
    ensures a == b
  {
    assert Placeholder(a)[|PLACEHOLDER_PREFIX|..] == a;
    assert Placeholder(b)[|PLACEHOLDER_PREFIX|..] == b;
  }

  lemma {:induction false} PlaceholderIsFree(rows: Days, plan: Plan<Day>, ids: seq<Id>, n: nat, days: Days)
    requires Fits(rows, plan, ids) && n < |plan.updates| && Staging(rows, plan, n, days)
    ensures !HeldByAnother(days, plan.updates[n].id, Placeholder(plan.updates[n].id))
  {
    var id := plan.updates[n].id;
    forall other | other in days && other != id ensures days[other].value.dayLabel != Placeholder(id) {
      assert IsPlaceholder(Placeholder(id));
      if days[other].value.dayLabel == Placeholder(other) == Placeholder(id) {
        PlaceholdersDiffer(other, id);
      }
      if IsUpdated(plan.updates, |plan.updates|, other) {
        var m :| 0 <= m < |plan.updates| && plan.updates[m].id == other;
      }
    }
  }

  /** A changed day's own write is refused exactly when it takes a retired day's label. */
  lemma {:induction false} UpdateRefused(rows: Days, plan: Plan<Day>, ids: seq<Id>, n: nat, days: Days)
    requires Fits(rows, plan, ids) && n < |plan.updates| && Updating(rows, plan, n, days)
    ensures var u := plan.updates[n];
            HeldByAnother(days, u.id, u.value.dayLabel) <==> Relabels(rows, u) && Taken(rows, plan, u.value.dayLabel)
  {
    var u := plan.updates[n];
    forall other | other in days && other != u.id && days[other].value.dayLabel == u.value.dayLabel
      ensures Relabels(rows, u) && Taken(rows, plan, u.value.dayLabel)
    {
      UpdateHeldByRetired(rows, plan, ids, n, days, other);
    }
    if Relabels(rows, u) && Taken(rows, plan, u.value.dayLabel) {
      var id :| id in rows && Retired(rows, plan, id) && rows[id].value.dayLabel == u.value.dayLabel;
      RetiredIsNotUpdated(rows, plan, ids, id);
      assert days[id].value.dayLabel == u.value.dayLabel && id != u.id;
    }
  }

  lemma {:induction false} UpdateHeldByRetired(rows: Days, plan: Plan<Day>, ids: seq<Id>, n: nat, days: Days, other: Id)
    requires Fits(rows, plan, ids) && n < |plan.updates| && Updating(rows, plan, n, days)
    requires other in days && other != plan.updates[n].id
    requires days[other].value.dayLabel == plan.updates[n].value.dayLabel
    ensures Relabels(rows, plan.updates[n]) && Retired(rows, plan, other) &&
              rows[other].value.dayLabel == days[other].value.dayLabel
  {
    var u := plan.updates[n];
    assert IsPlaceholder(Placeholder(other));
    forall m | 0 <= m < |plan.updates| ensures plan.updates[m].id != other {
    }
    assert !Kept(rows, plan, other);
  }

  lemma {:induction false} RetiredIsNotUpdated(rows: Days, plan: Plan<Day>, ids: seq<Id>, id: Id)
    requires WellFormed(rows, plan, ids) && Retired(rows, plan, id)
    ensures !IsUpdated(plan.updates, |plan.updates|, id)
  {
    forall m | 0 <= m < |plan.updates| ensures plan.updates[m].id != id {
    }
  }

  /** A new day's write is refused exactly when it takes a retired day's label. */
  lemma {:induction false} CreateRefused(rows: Days, plan: Plan<Day>, ids: seq<Id>, n: nat, days: Days)
    requires Fits(rows, plan, ids) && n < |ids| && Creating(rows, plan, ids, n, days)
    ensures HeldByAnother(days, ids[n], plan.creates[n].dayLabel) <==> Taken(rows, plan, plan.creates[n].dayLabel)
  {
    var day := plan.creates[n];
    forall other | other in days && other != ids[n] && days[other].value.dayLabel == day.dayLabel
      ensures Taken(rows, plan, day.dayLabel)
    {
      if other in rows {
        CreateHeldByRetired(rows, plan, ids, n, days, other);
      }
    }
    if Taken(rows, plan, day.dayLabel) {
      var id :| id in rows && Retired(rows, plan, id) && rows[id].value.dayLabel == day.dayLabel;
      RetiredIsNotUpdated(rows, plan, ids, id);
      assert days[id].value.dayLabel == day.dayLabel && id != ids[n];
    }
  }

  lemma {:induction false} CreateHeldByRetired(rows: Days, plan: Plan<Day>, ids: seq<Id>, n: nat, days: Days, other: Id)
    requires Fits(rows, plan, ids) && n < |ids| && Creating(rows, plan, ids, n, days)
    requires other in rows && days[other].value.dayLabel == plan.creates[n].dayLabel
    ensures Retired(rows, plan, other) && rows[other].value.dayLabel == days[other].value.dayLabel
  {
    forall m | 0 <= m < |plan.updates| ensures plan.updates[m].id != other {
    }
    assert !Kept(rows, plan, other);
  }

  // ── The run, phase by phase ──

  /** How the rest of the save ends: written in full, or refused over a retired day's label. */
  ghost predicate Ends(rows: Days, plan: Plan<Day>, ids: seq<Id>, r: Result<Days, Label>, clear: bool)
    requires WellFormed(rows, plan, ids)
  {
    && (r.Ok? <==> clear)
    && (r.Ok? ==> Applied(rows, plan, ids, r.value))
    && (r.Err? ==> Taken(rows, plan, r.error))
  }

  lemma {:induction false} RunFirst(days: Days, w: Write, rest: seq<Write>)
    ensures Run(days, [w] + rest) == if Refused(days, w) then Err(ReportedLabel(w)) else Run(Perform(days, w), rest)
  {
    assert ([w] + rest)[1..] == rest;
  }

  lemma {:induction false} UpdatesClearFirst(rows: Days, plan: Plan<Day>, n: nat)
    requires n < |plan.updates|
    ensures var u := plan.updates[n];
            UpdatesClear(rows, plan, n) <==>
                !(Relabels(rows, u) && Taken(rows, plan, u.value.dayLabel)) && UpdatesClear(rows, plan, n + 1)
  {
  }

  lemma {:induction false} CreatesClearFirst(rows: Days, plan: Plan<Day>, n: nat)
    requires n < |plan.creates|
    ensures CreatesClear(rows, plan, n) <==>
              !Taken(rows, plan, plan.creates[n].dayLabel) && CreatesClear(rows, plan, n + 1)
  {
  }

  lemma {:induction false} EndsRefused(rows: Days, plan: Plan<Day>, ids: seq<Id>, r: Result<Days, Label>)
    requires WellFormed(rows, plan, ids) && r.Err? && Taken(rows, plan, r.error)
    ensures Ends(rows, plan, ids, r, false)
  {
  }

  lemma {:induction false} CreatePhase(rows: Days, plan: Plan<Day>, ids: seq<Id>, n: nat, days: Days)
    requires Fits(rows, plan, ids) && Creating(rows, plan, ids, n, days)
    ensures Ends(rows, plan, ids, Run(days, CreateWrites(plan, ids, n)), CreatesClear(rows, plan, n))
    decreases |ids| - n
  {
    if n < |ids| {
      var w := AddDay(ids[n], plan.creates[n]);
      CreateRefused(rows, plan, ids, n, days);
      CreatesClearFirst(rows, plan, n);
      RunFirst(days, w, CreateWrites(plan, ids, n + 1));
      if Refused(days, w) {
        EndsRefused(rows, plan, ids, Err(plan.creates[n].dayLabel));
      } else {
        CreateStep(rows, plan, ids, n, days);
        CreatePhase(rows, plan, ids, n + 1, Perform(days, w));
      }
    } else {
      AllCreated(rows, plan, ids, days);
    }
  }

  lemma {:induction false} CreateStep(rows: Days, plan: Plan<Day>, ids: seq<Id>, n: nat, days: Days)
    requires WellFormed(rows, plan, ids) && n < |ids| && Creating(rows, plan, ids, n, days)
    ensures Creating(rows, plan, ids, n + 1, Perform(days, AddDay(ids[n], plan.creates[n])))
  {
    assert ids[..n + 1] == ids[..n] + [ids[n]];
    forall m | 0 <= m < |plan.updates| ensures plan.updates[m].id != ids[n] {
    }
  }

  lemma {:induction false} AllCreated(rows: Days, plan: Plan<Day>, ids: seq<Id>, days: Days)
    requires WellFormed(rows, plan, ids) && Creating(rows, plan, ids, |ids|, days)
    ensures Applied(rows, plan, ids, days)
  {
    assert ids[..|ids|] == ids && plan.archives[..|plan.archives|] == plan.archives;
    forall id | id in plan.archives ensures days[id] == rows[id].(isArchived := true) {
      RetiredIsNotUpdated(rows, plan, ids, id);
    }
    forall m | 0 <= m < |plan.updates|
      ensures days[plan.updates[m].id] == rows[plan.updates[m].id].(value := plan.updates[m].value)
    {
    }
  }

  lemma {:induction false} FirstUpdate(rows: Days, plan: Plan<Day>, ids: seq<Id>, n: nat, days: Days)
    requires Fits(rows, plan, ids) && n < |plan.updates| && Updating(rows, plan, n, days)
    ensures var u := plan.updates[n];
            Run(days, UpdateWrites(plan, ids, n)) ==
            if Relabels(rows, u) && Taken(rows, plan, u.value.dayLabel) then Err(u.value.dayLabel)
            else Run(Perform(days, RewriteDay(u.id, u.value)), UpdateWrites(plan, ids, n + 1))
  {
    var u := plan.updates[n];
    UpdateRefused(rows, plan, ids, n, days);
    RunFirst(days, RewriteDay(u.id, u.value), UpdateWrites(plan, ids, n + 1));
  }

  lemma {:induction false} UpdatePhase(rows: Days, plan: Plan<Day>, ids: seq<Id>, n: nat, days: Days)
    requires Fits(rows, plan, ids) && Updating(rows, plan, n, days)
    ensures Ends(rows, plan, ids, Run(days, UpdateWrites(plan, ids, n)), UpdatesClear(rows, plan, n) &&
                 CreatesClear(rows, plan, 0))
    decreases |plan.updates| - n
  {
    if n < |plan.updates| {
      var u := plan.updates[n];
      FirstUpdate(rows, plan, ids, n, days);
      UpdatesClearFirst(rows, plan, n);
      if Relabels(rows, u) && Taken(rows, plan, u.value.dayLabel) {
        EndsRefused(rows, plan, ids, Err(u.value.dayLabel));
      } else {
        UpdateStep(rows, plan, ids, n, days);
        UpdatePhase(rows, plan, ids, n + 1, Perform(days, RewriteDay(u.id, u.value)));
      }
    } else {
      AllUpdated(rows, plan, ids, days);
      CreatePhase(rows, plan, ids, 0, days);
    }
  }

  lemma {:induction false} UpdateStep(rows: Days, plan: Plan<Day>, ids: seq<Id>, n: nat, days: Days)
    requires WellFormed(rows, plan, ids) && n < |plan.updates| && Updating(rows, plan, n, days)
    ensures Updating(rows, plan, n + 1, Perform(days, RewriteDay(plan.updates[n].id, plan.updates[n].value)))
  {
    assert IsUpdated(plan.updates, |plan.updates|, plan.updates[n].id);
  }

  lemma {:induction false} AllUpdated(rows: Days, plan: Plan<Day>, ids: seq<Id>, days: Days)
    requires WellFormed(rows, plan, ids) && Updating(rows, plan, |plan.updates|, days)
    ensures Creating(rows, plan, ids, 0, days)
  {
  }

  function Staged(rows: Days, u: Update<Day>, days: Days): Days {
    if Relabels(rows, u) then Perform(days, Relabel(u.id, Placeholder(u.id), u.value.venue)) else days
  }

  lemma {:induction false} FirstPlaceholder(rows: Days, plan: Plan<Day>, ids: seq<Id>, n: nat, days: Days)
    requires Fits(rows, plan, ids) && n < |plan.updates| && Staging(rows, plan, n, days)
    ensures Run(days, PlaceholderWrites(rows, plan, ids, n))
            == Run(Staged(rows, plan.updates[n], days), PlaceholderWrites(rows, plan, ids, n + 1))
  {
    var u := plan.updates[n];
    PlaceholderIsFree(rows, plan, ids, n, days);
    RunFirst(days, Relabel(u.id, Placeholder(u.id), u.value.venue), PlaceholderWrites(rows, plan, ids, n + 1));
  }

  lemma {:induction false} PlaceholderStep(rows: Days, plan: Plan<Day>, ids: seq<Id>, n: nat, days: Days)
    requires WellFormed(rows, plan, ids) && n < |plan.updates| && Staging(rows, plan, n, days)
    ensures Staging(rows, plan, n + 1, Staged(rows, plan.updates[n], days))
  {
    var staged := Staged(rows, plan.updates[n], days);
    assert IsUpdated(plan.updates, |plan.updates|, plan.updates[n].id);
    forall m | 0 <= m < |plan.updates| && m != n ensures staged[plan.updates[m].id] == days[plan.updates[m].id] {
    }
    assert RestSettled(rows, plan, staged);
  }

  lemma {:induction false} PlaceholderPhase(rows: Days, plan: Plan<Day>, ids: seq<Id>, n: nat, days: Days)
    requires Fits(rows, plan, ids) && Staging(rows, plan, n, days)
    ensures Ends(rows, plan, ids, Run(days, PlaceholderWrites(rows, plan, ids, n)), NoClash(rows, plan))
    decreases |plan.updates| - n
  {
    if n < |plan.updates| {
      FirstPlaceholder(rows, plan, ids, n, days);
      PlaceholderStep(rows, plan, ids, n, days);
      PlaceholderPhase(rows, plan, ids, n + 1, Staged(rows, plan.updates[n], days));
    } else {
      assert Updating(rows, plan, 0, days);
      UpdatePhase(rows, plan, ids, 0, days);
    }
  }

  lemma {:induction false} ArchivePhase(rows: Days, plan: Plan<Day>, ids: seq<Id>, n: nat, days: Days)
    requires Fits(rows, plan, ids) && Archiving(rows, plan, n, days)
    ensures Ends(rows, plan, ids, Run(days, ArchiveWrites(rows, plan, ids, n)), NoClash(rows, plan))
    decreases |plan.archives| - n
  {
    if n < |plan.archives| {
      var w := ArchiveDay(plan.archives[n]);
      RunFirst(days, w, ArchiveWrites(rows, plan, ids, n + 1));
      ArchiveStep(rows, plan, ids, n, days);
      ArchivePhase(rows, plan, ids, n + 1, Perform(days, w));
    } else {
      AllArchived(rows, plan, ids, days);
      PlaceholderPhase(rows, plan, ids, 0, days);
    }
  }

  lemma {:induction false} ArchiveStep(rows: Days, plan: Plan<Day>, ids: seq<Id>, n: nat, days: Days)
    requires WellFormed(rows, plan, ids) && n < |plan.archives| && Archiving(rows, plan, n, days)
    ensures Archiving(rows, plan, n + 1, Perform(days, ArchiveDay(plan.archives[n])))
  {
    assert plan.archives[..n + 1] == plan.archives[..n] + [plan.archives[n]];
  }

  lemma {:induction false} AllArchived(rows: Days, plan: Plan<Day>, ids: seq<Id>, days: Days)
    requires WellFormed(rows, plan, ids) && Archiving(rows, plan, |plan.archives|, days)
    ensures Staging(rows, plan, 0, days)
  {
    assert plan.archives[..|plan.archives|] == plan.archives;
    forall m | 0 <= m < |plan.updates| ensures days[plan.updates[m].id] == rows[plan.updates[m].id] {
    }
  }

  /** The save fails exactly on a label a retired day holds, and names that
      label; otherwise every planned row is written. */
  lemma {:induction false} SaveFailsExactlyOnAClash(rows: Days, plan: Plan<Day>, ids: seq<Id>)
    requires Fits(rows, plan, ids)
    ensures Ends(rows, plan, ids, Run(rows, Writes(rows, plan, ids)), NoClash(rows, plan))
  {
    ArchivePhase(rows, plan, ids, 0, rows);
  }

  function PlainDay(dayLabel: Label): Day {
    Day(dayLabel, 0, None, None, Venue(None, None, None, None))
  }

  /** An archived day labelled "Friday", a live one labelled "Saturday". */
  function TwoDays(): Days {
    map["old" := Saved(PlainDay("Friday"), true), "day" := Saved(PlainDay("Saturday"), false)]
  }

  function ToFriday(): Plan<Day> {
    Plan([], [Update("day", PlainDay("Friday"))], [])
  }

  lemma {:induction false} PlainLabel(dayLabel: Label)
    requires dayLabel != "" && dayLabel[0] != PLACEHOLDER_PREFIX[0]
    ensures !IsPlaceholder(dayLabel)
  {
  }

  lemma {:induction false} ToFridayFits()
    ensures Fits(TwoDays(), ToFriday(), []) && Taken(TwoDays(), ToFriday(), "Friday")
  {
    PlainLabel("Friday");
    PlainLabel("Saturday");
    assert |"Friday"| != |"Saturday"|;
    assert Retired(TwoDays(), ToFriday(), "old") && TwoDays()["old"].value.dayLabel == "Friday";
    assert forall id :: id in TwoDays() <==> id == "old" || id == "day";
  }

  /** Relabelling the live day "Friday" is a plan like any other, and its save fails over that label. */
  lemma {:induction false} ArchivedLabelRefused()
    ensures Fits(TwoDays(), ToFriday(), []) && !NoClash(TwoDays(), ToFriday())
    ensures Run(TwoDays(), Writes(TwoDays(), ToFriday(), [])).Err?
  {
    ToFridayFits();
    assert Relabels(TwoDays(), ToFriday().updates[0]);
    SaveFailsExactlyOnAClash(TwoDays(), ToFriday(), []);
  }

  // ── Every state on the way ──

  /** The index refuses a write exactly when the labels would no longer be unique. */
  lemma {:induction false} RefusedExactlyOnADuplicate(days: Days, w: Write)
    requires UniqueLabels(days) && (w.AddDay? <==> w.id !in days)
    ensures Refused(days, w) <==> !UniqueLabels(Perform(days, w))
  {
    var after := Perform(days, w);
    if Refused(days, w) {
      var other :| other in days && other != w.id && days[other].value.dayLabel == after[w.id].value.dayLabel;
      assert after[other].value.dayLabel == after[w.id].value.dayLabel;
    }
  }

  lemma {:induction false} AcceptedWritesKeepLabelsUnique(days: Days, writes: seq<Write>, k: nat)
    requires UniqueLabels(days) && Run(days, writes).Ok? && k <= |writes|
    ensures Run(days, writes[..k]).Ok? && UniqueLabels(Run(days, writes[..k]).value)
    decreases k
  {
    if k > 0 {
      var next := Perform(days, writes[0]);
      AcceptedWritesKeepLabelsUnique(next, writes[1..], k - 1);
      assert writes[..k][0] == writes[0] && writes[..k][1..] == writes[1..][..k - 1];
    }
  }

  /** Any permutation, swap or cycle of labels goes through: the index holds after every single write. */
  lemma {:induction false} EveryIntermediateStateIsUnique(rows: Days, plan: Plan<Day>, ids: seq<Id>, k: nat)
    requires Fits(rows, plan, ids) && NoClash(rows, plan) && k <= |Writes(rows, plan, ids)|
    ensures var r := Run(rows, Writes(rows, plan, ids)[..k]); r.Ok? && UniqueLabels(r.value)
  {
    SaveFailsExactlyOnAClash(rows, plan, ids);
    AcceptedWritesKeepLabelsUnique(rows, Writes(rows, plan, ids), k);
  }

  /** Without the placeholders, two days swapping labels would be refused half-way. */
  lemma {:induction false} SwapNeedsPlaceholders(rows: Days, a: Id, b: Id, dayA: Day, dayB: Day)
    requires a in rows && b in rows && a != b && UniqueLabels(rows)
    requires dayA.dayLabel == rows[b].value.dayLabel && dayB.dayLabel == rows[a].value.dayLabel
    ensures Run(rows, [RewriteDay(a, dayA), RewriteDay(b, dayB)]).Err?
  {
  }
}
