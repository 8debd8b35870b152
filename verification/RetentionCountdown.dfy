/** The countdown an event view shows, over whole runs: it never goes back, and it
    never promises a date later than the purge that comes. */
module RetentionCountdown {
  import opened Prelude
  import opened RetentionDates
  import opened RetentionTables
  import opened RetentionProtocol
  import opened RetentionSafety

  /** withMediaRetention's mediaPurgeAt. */
  function MediaPurgeAt(t: Tables, e: EventId, enabled: bool, now: Time): Option<Time> {
    if e !in t.events || !t.events[e].isArchived || t.events[e].archivedAt.None? then None
    else
      var a := t.events[e].archivedAt.value;
      var key := PurgeKey(e, a);
      if key in t.purges then Some(t.purges[key].startedAt)
      else ScheduledPurgeAt(enabled, a, if key in t.reminders then Some(t.reminders[key]) else None, now)
  }

  /** What an organiser sees now, with the feature on. */
  function Shown(db: Db, key: PurgeKey): Time
    requires ArchivedSince(db.rows, key.eventId, key.archivedAt)
  {
    MediaPurgeAt(db.rows, key.eventId, true, db.clock).value
  }

  /** The archiving has something to download until its purge begins. */
  predicate Kept(db: Db, key: PurgeKey) {
    && ArchivedSince(db.rows, key.eventId, key.archivedAt)
    && (key in db.rows.purges || SomethingToDownload(db.rows, key.eventId))
  }

  /** Not a super admin's purge of this event, and its reminder stamped when it is claimed. */
  predicate Ordinary(db: Db, step: Step, key: PurgeKey) {
    && !(step.ClaimNow? && step.eventId == key.eventId)
    && (step.ClaimReminderFor? && step.read.key == key ==> step.read.now == db.clock)
  }

  ghost predicate OrdinaryRun(db: Db, steps: seq<Step>, key: PurgeKey)
    decreases |steps|
  {
    && Kept(db, key)
    && (steps != [] ==> Ordinary(db, steps[0], key) && OrdinaryRun(Next(db, steps[0]), steps[1..], key))
  }

  /** A sweep's purge starts no earlier than the date shown until then. */
  lemma {:induction false} ShownBeforePurge(db: Db, due: DueRead, key: PurgeKey)
    requires ClaimInv(db) && Kept(db, key) && key !in db.rows.purges
    requires due in db.dueReads && due.eventId == key.eventId && key.archivedAt <= due.now - RETENTION_MS
    ensures Shown(db, key) <= due.now
  {
    assert ArchivedSince(db.rows, due.eventId, key.archivedAt);
    assert StillDue(db.rows, key, due.now);
    assert SomethingToDownload(db.rows, key.eventId);
  }

  lemma {:induction false} ClaimKeepsShown(db: Db, due: DueRead, key: PurgeKey)
    requires ClaimInv(db) && Kept(db, key) && due in db.dueReads
    ensures var next := DoClaim(db, due.eventId, RETENTION, None, Some(due.now - RETENTION_MS), due.now);
            Kept(next, key) ==> Shown(db, key) <= Shown(next, key)
  {
    var next := DoClaim(db, due.eventId, RETENTION, None, Some(due.now - RETENTION_MS), due.now);
    if key !in db.rows.purges && key in next.rows.purges {
      ShownBeforePurge(db, due, key);
      assert next.rows.purges[key].startedAt == due.now;
    }
  }

  lemma {:induction false} ShownNeverStepsBack(db: Db, step: Step, key: PurgeKey)
    requires ClaimInv(db) && Kept(db, key) && Kept(Next(db, step), key) && Ordinary(db, step, key)
    ensures Shown(db, key) <= Shown(Next(db, step), key)
  {
    if Enabled(db, step) {
      if step.ClaimDue? {
        ClaimKeepsShown(db, step.due, key);
      } else if step.ClaimReminderFor? {
        ReminderKeepsShown(db, step.read, key);
      } else {
        OtherStepsKeepDates(db, step, key);
        ScheduledNeverStepsBack(key.archivedAt, if key in db.rows.reminders then Some(db.rows.reminders[key]) else None,
          db.clock, Next(db, step).clock);
      }
    }
  }

  /** With nothing else changing, time alone never takes the scheduled date back. */
  lemma {:induction false} ScheduledNeverStepsBack(archivedAt: Time, remindedAt: Option<Time>, now: Time, later: Time)
    requires 0 <= archivedAt && now <= later
    ensures ScheduledPurgeAt(true, archivedAt, remindedAt, now).value <= ScheduledPurgeAt(true, archivedAt, remindedAt,
              later).value
  {
  }

  /** A reminder's row takes no date back, when it is its own event's only if stamped now. */
  lemma {:induction false} DateAfterReminder(t: Tables, reminded: PurgeKey, claimedAt: Time, key: PurgeKey, now: Time)
    requires ArchivedSince(t, key.eventId, key.archivedAt) && 0 <= key.archivedAt
    requires reminded == key ==> claimedAt == now && now >= MediaPurgeReminderDueAt(key.archivedAt)
    ensures var after := ClaimReminder(t, reminded, claimedAt).0;
            && ArchivedSince(after, key.eventId, key.archivedAt)
            && MediaPurgeAt(t, key.eventId, true, now).value <= MediaPurgeAt(after, key.eventId, true, now).value
  {
  }

  lemma {:induction false} ReminderKeepsShown(db: Db, read: RemindRead, key: PurgeKey)
    requires ClaimInv(db) && Kept(db, key) && read in db.remindReads && (read.key == key ==> read.now == db.clock)
    ensures var next := DoClaimReminder(db, read);
            Kept(next, key) && Shown(db, key) <= Shown(next, key)
  {
    var next := DoClaimReminder(db, read);
    assert read.now >= MediaPurgeReminderDueAt(read.key.archivedAt);
    assert next.rows == ClaimReminder(db.rows, read.key, read.now).0 && next.clock == db.clock;
    DateAfterReminder(db.rows, read.key, read.now, key, db.clock);
    assert SomethingToDownload(next.rows, key.eventId) == SomethingToDownload(db.rows, key.eventId);
  }

  /** No other step touches the rows the date is worked out from. */
  lemma {:induction false} OtherStepsKeepDates(db: Db, step: Step, key: PurgeKey)
    requires ClaimInv(db) && Enabled(db, step) && Kept(db, key) && Kept(Next(db, step), key)
    requires !step.ClaimDue? && !step.ClaimReminderFor? && !(step.ClaimNow? && step.eventId == key.eventId)
    ensures var next := Next(db, step);
            && (key in next.rows.purges <==> key in db.rows.purges)
            && (key in db.rows.purges ==> next.rows.purges[key].startedAt == db.rows.purges[key].startedAt)
            && next.rows.reminders == db.rows.reminders
            && db.clock <= next.clock
  {
    if LeavesClaims(step) {
      AttemptStepUntouched(db, step);
    }
  }

  /** Over any run that keeps an archiving and its downloads until its purge, the date
      shown never decreases; so once the purge has begun, it began no earlier than any
      date that had been shown. */
  lemma {:induction false} CountdownNeverGoesBack(db: Db, steps: seq<Step>, key: PurgeKey)
    requires ClaimInv(db) && OrdinaryRun(db, steps, key)
    ensures Kept(Exec(db, steps), key)
    ensures Shown(db, key) <= Shown(Exec(db, steps), key)
    ensures key in Exec(db, steps).rows.purges ==> Shown(db, key) <= Exec(db, steps).rows.purges[key].startedAt
    decreases |steps|
  {
    if steps != [] {
      StepKeepsClaimInv(db, steps[0]);
      ShownNeverStepsBack(db, steps[0], key);
      CountdownNeverGoesBack(Next(db, steps[0]), steps[1..], key);
    }
  }

  /** Exactly when a reminder's claim leaves the date shown alone: when it is stamped
      with the instant it is written. A sweep that read its clock earlier takes the
      date back by just that delay. */
  lemma {:induction false} ReminderMovesTheDate(db: Db, read: RemindRead)
    requires ClaimInv(db) && Kept(db, read.key) && read in db.remindReads
    requires read.key !in db.rows.purges && read.key !in db.rows.reminders
    ensures Shown(db, read.key) - Shown(Next(db, ClaimReminderFor(read)), read.key) == db.clock - read.now
    ensures Shown(db, read.key) <= Shown(Next(db, ClaimReminderFor(read)), read.key) <==> read.now == db.clock
  {
    assert read.now <= db.clock && read.now >= MediaPurgeReminderDueAt(read.key.archivedAt);
  }

  /** A photo approved and its event archived, all at 0. */
  lemma {:induction false} PhotoArchived() returns (db: Db)
    ensures Reaches(OneEvent(), db) && db.clock == 0 && db.remindReads == {}
    ensures db.rows == Tables(map["e" := EventRow(true, Some(0), true)], map[], map[],
                              map["photo" := Item("e", "p", true, IMAGE, true, false, 0, None, None)])
  {
    assert Exec(OneEvent(), []) == OneEvent();
    var photo := Item("e", "p", true, IMAGE, false, false, 0, None, None);
    ReachStep(OneEvent(), OneEvent(), AddItem("photo", "e", "p", true, IMAGE));
    db := WithItem(OneEvent(), "photo", photo);
    ReachStep(OneEvent(), db, EditItem("photo", true, false));
    db := WithItem(db, "photo", photo.(approved := true));
    ReachStep(OneEvent(), db, ArchiveEvent("e"));
    db := DoArchive(db, "e");
  }

  /** And a sweep's look at 23 days. */
  lemma {:induction false} LookedAt23Days() returns (db: Db, read: RemindRead)
    ensures Reaches(OneEvent(), db) && db.clock == 23 * DAY_MS
    ensures read == RemindRead(PurgeKey("e", 0), 23 * DAY_MS) && db.remindReads == {read}
    ensures db.rows == Tables(map["e" := EventRow(true, Some(0), true)], map[], map[],
                              map["photo" := Item("e", "p", true, IMAGE, true, false, 0, None, None)])
  {
    db := PhotoArchived();
    ReachStep(OneEvent(), db, Tick(23 * DAY_MS));
    db := db.(clock := 23 * DAY_MS);
    assert CanDownload(db.rows.items["photo"], "e") && SomethingToDownload(db.rows, "e");
    ReachStep(OneEvent(), db, ReadForReminder("e", 23 * DAY_MS));
    db := Next(db, ReadForReminder("e", 23 * DAY_MS));
    read := RemindRead(PurgeKey("e", 0), 23 * DAY_MS);
  }

  /** One such run: the reminder is written an hour after its sweep's clock, and the date shown goes back an hour. */
  lemma {:induction false} LateReminderStepsBack() returns (db: Db, read: RemindRead)
    ensures Reaches(OneEvent(), db) && Kept(db, PurgeKey("e", 0)) && Enabled(db, ClaimReminderFor(read))
    ensures var next := Next(db, ClaimReminderFor(read));
            Kept(next, PurgeKey("e", 0)) && Shown(next, PurgeKey("e", 0)) == Shown(db, PurgeKey("e", 0)) - HOUR_MS
  {
    db, read := LookedAt23Days();
    ReachStep(OneEvent(), db, Tick(23 * DAY_MS + HOUR_MS));
    db := db.(clock := 23 * DAY_MS + HOUR_MS);
    assert CanDownload(db.rows.items["photo"], "e");
    assert Next(db, ClaimReminderFor(read)) == DoClaimReminder(db, read);
  }
}
