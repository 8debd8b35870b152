/** When a sweep acts: exactly which archived events it reminds and which it purges. */
module RetentionDue {
  import opened Prelude
  import opened RetentionDates
  import opened RetentionTables
  import opened RetentionProtocol

  /** There is media the organisers could download: a live hub's approved item, neither archived nor purged. */
  ghost predicate HasDownloads(t: Tables, e: EventId) {
    && e in t.events && t.events[e].hubLive
    && (exists i :: i in t.items && t.items[i].eventId == e && t.items[i].approved && !t.items[i].isArchived
                    && t.items[i].purgedAt.None?)
  }

  lemma {:induction false} DownloadsAreThere(t: Tables, e: EventId)
    ensures SomethingToDownload(t, e) <==> HasDownloads(t, e)
  {
    if SomethingToDownload(t, e) {
      var i :| i in t.items && CanDownload(t.items[i], e);
    }
    if HasDownloads(t, e) {
      var i :| i in t.items && t.items[i].eventId == e && t.items[i].approved && !t.items[i].isArchived &&
          t.items[i].purgedAt.None?;
      assert CanDownload(t.items[i], e);
    }
  }

  /** Archived at `a`, and this archiving's purge not begun. */
  predicate AwaitsPurge(t: Tables, e: EventId, a: Time) {
    && e in t.events && t.events[e].isArchived && t.events[e].archivedAt == Some(a) && PurgeKey(e, a) !in t.purges
  }

  /** Archived for 30 days, and reminded a week ago or more unless there is nothing to download. */
  ghost predicate IsDue(t: Tables, e: EventId, a: Time, now: Time) {
    var key := PurgeKey(e, a);
    && a + 30 * DAY_MS <= now
    && ((key in t.reminders && t.reminders[key] + 7 * DAY_MS <= now) || !HasDownloads(t, e))
  }

  /** The due query lists exactly the events archived, not purged for this archiving, and due. */
  lemma {:induction false} QueryListsExactly(t: Tables, e: EventId, now: Time)
    ensures e in DueEvents(t, now) <==> exists a :: AwaitsPurge(t, e, a) && IsDue(t, e, a, now)
  {
    DownloadsAreThere(t, e);
    if e in DueEvents(t, now) {
      var a := t.events[e].archivedAt.value;
      assert AwaitsPurge(t, e, a) && IsDue(t, e, a, now);
    }
  }

  /** A sweep that finds an event due and claims it at once begins its purge exactly
      when it has been archived for 30 days and either was reminded a week ago or
      more, or has nothing to download. */
  lemma {:induction false} SweepClaimsExactly(db: Db, e: EventId, a: Time, now: Time)
    requires now <= db.clock && DueRead(e, now) !in db.dueReads
    requires AwaitsPurge(db.rows, e, a)
    ensures var swept := Next(Next(db, QueryDue(now)), ClaimDue(DueRead(e, now)));
            var key := PurgeKey(e, a);
            && (key in swept.rows.purges <==> IsDue(db.rows, e, a, now))
            && (key in swept.rows.purges ==>
                  swept.rows.purges == db.rows.purges[key := Purge(RETENTION, None, now, None, None, 0, 0, 0)])
            && (key !in swept.rows.purges ==> swept.rows == db.rows)
  {
    DownloadsAreThere(db.rows, e);
    var queried := Next(db, QueryDue(now));
    assert queried.rows == db.rows;
    assert DueRead(e, now) in queried.dueReads <==> e in DueEvents(db.rows, now);
  }

  /** And so a reminded event with media is purged from the instant its email gives, and never before. */
  lemma {:induction false} SweepClaimsFromTheEmailedDate(db: Db, e: EventId, a: Time, now: Time)
    requires now <= db.clock && DueRead(e, now) !in db.dueReads
    requires AwaitsPurge(db.rows, e, a) && HasDownloads(db.rows, e)
    requires PurgeKey(e, a) in db.rows.reminders
    ensures PurgeKey(e, a) in Next(Next(db, QueryDue(now)), ClaimDue(DueRead(e, now))).rows.purges <==>
              MediaPurgeDueAt(a, Some(db.rows.reminders[PurgeKey(e, a)])) <= now
  {
    SweepClaimsExactly(db, e, a, now);
  }

  /** A super admin begins a purge exactly when none was begun, however recent the archiving. */
  lemma {:induction false} SuperAdminClaimsExactly(db: Db, e: EventId, user: string, now: Time)
    requires now <= db.clock && e in db.rows.events
    ensures var next := Next(db, ClaimNow(e, user, now));
            (exists a :: AwaitsPurge(db.rows, e, a) && next.rows.purges ==
               db.rows.purges[PurgeKey(e, a) := Purge(SUPER_ADMIN, Some(user), now, None, None, 0, 0, 0)])
            || (next.rows == db.rows && forall a :: !AwaitsPurge(db.rows, e, a))
  {
    if db.rows.events[e].isArchived && db.rows.events[e].archivedAt.Some? {
      var a := db.rows.events[e].archivedAt.value;
      assert PurgeKey(e, a) !in db.rows.purges ==> AwaitsPurge(db.rows, e, a);
    }
  }

  /** A sweep that looks at an event and claims its reminder at once does so exactly
      once, from 23 days after the archiving, while there is media and no purge. */
  lemma {:induction false} SweepRemindsExactly(db: Db, e: EventId, a: Time, now: Time)
    requires now <= db.clock && RemindRead(PurgeKey(e, a), now) !in db.remindReads
    requires e in db.rows.events && db.rows.events[e].isArchived && db.rows.events[e].archivedAt == Some(a)
    ensures var swept := Next(Next(db, ReadForReminder(e, now)), ClaimReminderFor(RemindRead(PurgeKey(e, a), now)));
            var key := PurgeKey(e, a);
            if AwaitsPurge(db.rows, e, a) && a + 23 * DAY_MS <= now && HasDownloads(db.rows, e)
               && key !in db.rows.reminders
            then swept.rows == db.rows.(reminders := db.rows.reminders[key := now])
            else swept.rows == db.rows
  {
    DownloadsAreThere(db.rows, e);
  }
}
