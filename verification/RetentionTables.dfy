/** The rows the archived-media retention works on, and every write of
    media-retention.repository.ts and of event.repository.ts's archive and
    reactivate as one atomic change to them. */
module RetentionTables {
  import opened Prelude
  import opened RetentionDates

  type EventId = string
  type ItemId = string

  /** One event and archiving: the unique index of both claim tables. */
  datatype PurgeKey = PurgeKey(eventId: EventId, archivedAt: Time)

  datatype MediaType = IMAGE | VIDEO

  datatype Reason = RETENTION | SUPER_ADMIN

  datatype EventRow = EventRow(isArchived: bool, archivedAt: Option<Time>, hubLive: bool)

  /** `purgedBy` is which purge's write set purgedAt: history, not a column. */
  datatype Item = Item(
    eventId: EventId, publicId: string, inFolder: bool, mediaType: MediaType,
    approved: bool, isArchived: bool, createdAt: Time,
    purgedAt: Option<Time>, purgedBy: Option<PurgeKey>)

  datatype Purge = Purge(
    reason: Reason, requestedBy: Option<string>, startedAt: Time, completedAt: Option<Time>,
    leaseUntil: Option<Time>, attemptCount: nat, purgedCount: nat, failedCount: nat)

  datatype Tables = Tables(
    events: map<EventId, EventRow>,
    reminders: map<PurgeKey, Time>,
    purges: map<PurgeKey, Purge>,
    items: map<ItemId, Item>)

  datatype PurgeClaim = CLAIMED | EXISTS | NOT_ARCHIVED | NOT_DUE

  /** A live, approved, unpurged item: what the organisers could download. */
  predicate CanDownload(item: Item, e: EventId) {
    item.eventId == e && !item.isArchived && item.approved && item.purgedAt.None?
  }

  predicate SomethingToDownload(t: Tables, e: EventId) {
    e in t.events && t.events[e].hubLive && exists i :: i in t.items && CanDownload(t.items[i], e)
  }

  predicate ArchivedSince(t: Tables, e: EventId, a: Time) {
    e in t.events && t.events[e].isArchived && t.events[e].archivedAt == Some(a)
  }

  /** The condition of findDuePurgeEventIds for one event and archiving. */
  predicate DueForPurge(t: Tables, e: EventId, a: Time, now: Time) {
    var key := PurgeKey(e, a);
    && ArchivedSince(t, e, a)
    && a <= now - RETENTION_MS
    && key !in t.purges
    && ((key in t.reminders && t.reminders[key] <= now - NOTICE_MS) || !SomethingToDownload(t, e))
  }

  function DueEvents(t: Tables, now: Time): set<EventId> {
    set e | e in t.events && t.events[e].archivedAt.Some? && DueForPurge(t, e, t.events[e].archivedAt.value, now)
  }

  // ── Writes ──

  function Archive(t: Tables, e: EventId, at: Time): Tables
    requires e in t.events
  {
    t.(events := t.events[e := t.events[e].(isArchived := true, archivedAt := Some(at))])
  }

  function Reactivate(t: Tables, e: EventId): Tables
    requires e in t.events
  {
    t.(events := t.events[e := t.events[e].(isArchived := false, archivedAt := None)])
  }

  /** The insert of claimReminder, duplicates skipped. */
  function ClaimReminder(t: Tables, key: PurgeKey, claimedAt: Time): (Tables, bool) {
    if key in t.reminders then (t, false) else (t.(reminders := t.reminders[key := claimedAt]), true)
  }

  /** claimPurge's transaction under the event's row lock. */
  function ClaimPurge(
    t: Tables, e: EventId, reason: Reason, requestedBy: Option<string>, dueBy: Option<Time>, now: Time
  ): (Tables, PurgeClaim)
  {
    if e !in t.events || !t.events[e].isArchived || t.events[e].archivedAt.None? then (t, NOT_ARCHIVED)
    else
      var a := t.events[e].archivedAt.value;
      var key := PurgeKey(e, a);
      if dueBy.Some? && a > dueBy.value then (t, NOT_DUE)
      else if key in t.purges then (t, EXISTS)
      else (t.(purges := t.purges[key := Purge(reason, requestedBy, now, None, None, 0, 0, 0)]), CLAIMED)
  }

  predicate LeaseFree(p: Purge, now: Time) {
    p.completedAt.None? && (p.leaseUntil.None? || p.leaseUntil.value < now)
  }

  function TakeLease(t: Tables, key: PurgeKey, now: Time, leaseUntil: Time): (Tables, bool) {
    if key in t.purges && LeaseFree(t.purges[key], now) then
      var p := t.purges[key];
      (t.(purges := t.purges[key := p.(leaseUntil := Some(leaseUntil), attemptCount := p.attemptCount + 1)]), true)
    else (t, false)
  }

  /** An item of the purge findItemsToPurge returns: existing when it began, not purged yet. */
  predicate ToPurge(item: Item, key: PurgeKey, startedAt: Time) {
    item.eventId == key.eventId && item.purgedAt.None? && item.createdAt <= startedAt
  }

  /** `rows` is an answer of findItemsToPurge: exactly those items, each once, oldest first. */
  ghost predicate IsItemsToPurge(t: Tables, key: PurgeKey, rows: seq<ItemId>)
    requires key in t.purges
  {
    && (forall i :: i in rows <==> i in t.items && ToPurge(t.items[i], key, t.purges[key].startedAt))
    && (forall m, n :: 0 <= m < n < |rows| ==> rows[m] != rows[n])
    && (forall m, n :: 0 <= m < n < |rows| ==> t.items[rows[m]].createdAt <= t.items[rows[n]].createdAt)
  }

  /** The rows markItemsPurged's conditional update changes. */
  function Unpurged(t: Tables, ids: set<ItemId>): set<ItemId> {
    set i | i in ids && i in t.items && t.items[i].purgedAt.None?
  }

  function MarkItemsPurged(t: Tables, ids: set<ItemId>, now: Time, key: PurgeKey): (Tables, nat) {
    var hit := Unpurged(t, ids);
    (t.(items := map i | i in t.items ::
          if i in hit then t.items[i].(purgedAt := Some(now), purgedBy := Some(key), isArchived := true)
          else t.items[i]),
     |hit|)
  }

  function FinishAttempt(t: Tables, key: PurgeKey, purgedCount: nat, failedCount: nat,
      completedAt: Option<Time>): Tables
    requires key in t.purges
  {
    var p := t.purges[key];
    t.(purges := t.purges[key := p.(leaseUntil := None, purgedCount := p.purgedCount + purgedCount,
                                    failedCount := failedCount, completedAt := completedAt)])
  }

  /** The repository: the same writes on rows updated in place. */
  class MediaRetentionRepository {
    var events: map<EventId, EventRow>
    var reminders: map<PurgeKey, Time>
    var purges: map<PurgeKey, Purge>
    var items: map<ItemId, Item>

    ghost function Rows(): Tables
      reads this
    {
      Tables(events, reminders, purges, items)
    }

    constructor (rows: Tables)
      ensures Rows() == rows
    {
      events, reminders, purges, items := rows.events, rows.reminders, rows.purges, rows.items;
    }

    method ArchiveEvent(e: EventId, at: Time)
      requires e in events
      modifies this`events
      ensures Rows() == Archive(old(Rows()), e, at)
      ensures events.Keys == old(events).Keys && forall x :: x in events && x != e ==> events[x] == old(events)[x]
      ensures events[e].isArchived && events[e].archivedAt == Some(at) && events[e].hubLive == old(events)[e].hubLive
    {
      events := events[e := events[e].(isArchived := true, archivedAt := Some(at))];
    }

    method ReactivateEvent(e: EventId)
      requires e in events
      modifies this`events
      ensures Rows() == Reactivate(old(Rows()), e)
      ensures events.Keys == old(events).Keys && forall x :: x in events && x != e ==> events[x] == old(events)[x]
      ensures !events[e].isArchived && events[e].archivedAt.None? && events[e].hubLive == old(events)[e].hubLive
    {
      events := events[e := events[e].(isArchived := false, archivedAt := None)];
    }

    method ClaimReminderOnce(e: EventId, archivedAt: Time, claimedAt: Time) returns (claimed: bool)
      modifies this`reminders
      ensures (Rows(), claimed) == ClaimReminder(old(Rows()), PurgeKey(e, archivedAt), claimedAt)
      ensures claimed <==> PurgeKey(e, archivedAt) !in old(reminders)
      ensures reminders == if claimed then old(reminders)[PurgeKey(e, archivedAt) := claimedAt] else old(reminders)
    {
      claimed := PurgeKey(e, archivedAt) !in reminders;
      if claimed {
        reminders := reminders[PurgeKey(e, archivedAt) := claimedAt];
      }
    }

    method ClaimPurgeOnce(e: EventId, reason: Reason, requestedBy: Option<string>, dueBy: Option<Time>, now: Time)
      returns (outcome: PurgeClaim)
      modifies this`purges
      ensures (Rows(), outcome) == ClaimPurge(old(Rows()), e, reason, requestedBy, dueBy, now)
      ensures outcome == NOT_ARCHIVED <==> e !in events || !events[e].isArchived || events[e].archivedAt.None?
      ensures outcome == NOT_DUE <==>
                && e in events && events[e].isArchived && events[e].archivedAt.Some?
                && dueBy.Some? && dueBy.value < events[e].archivedAt.value
      ensures outcome == CLAIMED <==>
                && e in events && events[e].isArchived && events[e].archivedAt.Some?
                && (dueBy.Some? ==> events[e].archivedAt.value <= dueBy.value)
                && PurgeKey(e, events[e].archivedAt.value) !in old(purges)
      ensures outcome == CLAIMED ==>
                var key := PurgeKey(e, events[e].archivedAt.value);
                && purges.Keys == old(purges).Keys + {key} && purges - {key} == old(purges)
                && purges[key].reason == reason && purges[key].requestedBy == requestedBy
                && purges[key].startedAt == now && purges[key].completedAt.None? && purges[key].leaseUntil.None?
                && purges[key].attemptCount == purges[key].purgedCount == purges[key].failedCount == 0
      ensures outcome != CLAIMED ==> purges == old(purges)
    {
      if e !in events || !events[e].isArchived || events[e].archivedAt.None? {
        return NOT_ARCHIVED;
      }
      var archivedAt := events[e].archivedAt.value;
      if dueBy.Some? && archivedAt > dueBy.value {
        return NOT_DUE;
      }
      var key := PurgeKey(e, archivedAt);
      outcome := EXISTS;
      if key !in purges {
        purges := purges[key := Purge(reason, requestedBy, now, None, None, 0, 0, 0)];
        outcome := CLAIMED;
      }
    }

    method TakeLeaseOf(key: PurgeKey, now: Time, leaseUntil: Time) returns (taken: bool)
      modifies this`purges
      ensures (Rows(), taken) == TakeLease(old(Rows()), key, now, leaseUntil)
      ensures taken <==>
                && key in old(purges) && old(purges)[key].completedAt.None?
                && (old(purges)[key].leaseUntil.None? || old(purges)[key].leaseUntil.value < now)
      ensures !taken ==> purges == old(purges)
      ensures taken ==>
                var was := old(purges)[key];
                purges == old(purges)[key := was.(leaseUntil := Some(leaseUntil), attemptCount := was.attemptCount + 1)]
    {
      taken := key in purges && LeaseFree(purges[key], now);
      if taken {
        var p := purges[key];
        purges := purges[key := p.(leaseUntil := Some(leaseUntil), attemptCount := p.attemptCount + 1)];
      }
    }

    method MarkPurged(ids: set<ItemId>, now: Time, key: PurgeKey) returns (count: nat)
      modifies this`items
      ensures (Rows(), count) == MarkItemsPurged(old(Rows()), ids, now, key)
      ensures items.Keys == old(items).Keys
      ensures forall i :: i in items && i in ids && old(items)[i].purgedAt.None? ==>
                && items[i].purgedAt == Some(now) && items[i].purgedBy == Some(key) && items[i].isArchived
                && items[i] == old(items)[i].(purgedAt := Some(now), purgedBy := Some(key), isArchived := true)
      ensures forall i :: i in items && !(i in ids && old(items)[i].purgedAt.None?) ==> items[i] == old(items)[i]
      ensures count == |set i | i in items && i in ids && old(items)[i].purgedAt.None?|
    {
      var hit := set i | i in ids && i in items && items[i].purgedAt.None?;
      assert hit == Unpurged(Rows(), ids);
      count := |hit|;
      assert hit == set i | i in items && i in ids && items[i].purgedAt.None?;
      items := map i | i in items ::
        if i in hit then items[i].(purgedAt := Some(now), purgedBy := Some(key), isArchived := true) else items[i];
    }

    method Finish(key: PurgeKey, purgedCount: nat, failedCount: nat, completedAt: Option<Time>)
      requires key in purges
      modifies this`purges
      ensures Rows() == FinishAttempt(old(Rows()), key, purgedCount, failedCount, completedAt)
      ensures purges.Keys == old(purges).Keys && forall k :: k in purges && k != key ==> purges[k] == old(purges)[k]
      ensures var was, row := old(purges)[key], purges[key];
              && row.leaseUntil.None? && row.completedAt == completedAt && row.failedCount == failedCount
              && row.purgedCount == was.purgedCount + purgedCount && row.attemptCount == was.attemptCount
              && row.startedAt == was.startedAt && row.reason == was.reason && row.requestedBy == was.requestedBy
    {
      var p := purges[key];
      purges := purges[key := p.(leaseUntil := None, purgedCount := p.purgedCount + purgedCount,
                                 failedCount := failedCount, completedAt := completedAt)];
    }
  }
}
