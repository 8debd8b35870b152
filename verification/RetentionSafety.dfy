/** What every run of the retention protocol keeps about its claims: at most one
    reminder and one purge per event and archiving, and no purge before its time. */
module RetentionSafety {
  import opened Prelude
  import opened RetentionDates
  import opened RetentionTables
  import opened RetentionProtocol

  /** The archiving an event is in after these happenings, if it is archived. */
  ghost function LastArchiving(log: seq<Happening>, e: EventId): Option<Time> {
    if log == [] then None
    else
      match log[|log| - 1]
      case Archived(x, at) => if x == e then Some(at) else LastArchiving(log[..|log| - 1], e)
      case Restored(x, _) => if x == e then None else LastArchiving(log[..|log| - 1], e)
      case _ => LastArchiving(log[..|log| - 1], e)
  }

  /** The purge that starts at `log[j]` is allowed there: its event is still in
      that archiving, and a sweep's purge comes 30 days into it and a week after its
      reminder, or with nothing to download. */
  ghost predicate SafeStart(log: seq<Happening>, j: nat)
    requires j < |log| && log[j].PurgeStarted?
  {
    var h := log[j];
    && LastArchiving(log[..j], h.key.eventId) == Some(h.key.archivedAt)
    && h.startedAt <= h.at
    && (h.reason == RETENTION ==>
          && h.startedAt >= h.key.archivedAt + RETENTION_MS
          && (h.nothingToDownload || RemindedBefore(log[..j], h.key, h.startedAt - NOTICE_MS)))
  }

  ghost predicate RemindedBefore(log: seq<Happening>, key: PurgeKey, limit: Time) {
    exists claimedAt, at :: Reminded(key, claimedAt, at) in log && claimedAt <= limit
  }

  /** The whole safety statement about a run's history. */
  ghost predicate SafeHistory(log: seq<Happening>) {
    && (forall j :: 0 <= j < |log| && log[j].PurgeStarted? ==> SafeStart(log, j))
    && (forall m, n :: 0 <= m < n < |log| && log[m].PurgeStarted? && log[n].PurgeStarted? ==> log[m].key != log[n].key)
    && (forall m, n :: 0 <= m < n < |log| && log[m].Reminded? && log[n].Reminded? ==> log[m].key != log[n].key)
    && (forall m, n :: 0 <= m < n < |log| ==> log[m].at <= log[n].at)
  }

  // ── The invariant ──

  ghost predicate GateInv(db: Db) {
    && 0 <= db.clock
    && (forall e :: e in db.rows.events && db.rows.events[e].isArchived ==>
          && db.rows.events[e].archivedAt.Some?
          && 0 <= db.rows.events[e].archivedAt.value <= db.clock
          && LastArchiving(db.log, e) == db.rows.events[e].archivedAt)
    && (forall h :: h in db.log ==> h.at <= db.clock)
  }

  ghost predicate StillDue(t: Tables, key: PurgeKey, now: Time) {
    || key in t.purges
    || (key in t.reminders && t.reminders[key] <= now - NOTICE_MS)
    || !SomethingToDownload(t, key.eventId)
  }

  /** Whatever a due query saw stays true until its claim, or the claim finds another archiving. */
  ghost predicate ReadsInv(db: Db) {
    && (forall r :: r in db.remindReads ==> r.now <= db.clock && r.now >= MediaPurgeReminderDueAt(r.key.archivedAt))
    && (forall r :: r in db.dueReads ==>
          && r.now <= db.clock
          && forall a :: ArchivedSince(db.rows, r.eventId, a) && a <= r.now - RETENTION_MS ==>
                           StillDue(db.rows, PurgeKey(r.eventId, a), r.now))
  }

  ghost predicate RowsMatchLog(db: Db) {
    && (forall key :: key in db.rows.reminders ==> exists at :: Reminded(key, db.rows.reminders[key], at) in db.log)
    && (forall h :: h in db.log && h.Reminded? ==>
          && h.key in db.rows.reminders && db.rows.reminders[h.key] == h.claimedAt && h.claimedAt <= h.at
          && h.claimedAt >= MediaPurgeReminderDueAt(h.key.archivedAt))
    && (forall h :: h in db.log && h.PurgeStarted? ==>
          && h.key in db.rows.purges
          && db.rows.purges[h.key].startedAt == h.startedAt && db.rows.purges[h.key].reason == h.reason)
    && (forall key :: key in db.rows.purges ==> exists h :: h in db.log && h.PurgeStarted? && h.key == key)
  }

  ghost predicate ClaimInv(db: Db) {
    GateInv(db) && ReadsInv(db) && RowsMatchLog(db) && SafeHistory(db.log)
  }

  lemma {:induction false} InitHoldsClaimInv(db: Db)
    requires Init(db)
    ensures ClaimInv(db)
  {
  }

  /** A history that grows by one happening stays safe when that one is. */
  lemma {:induction false} HistoryGrows(log: seq<Happening>, h: Happening)
    requires SafeHistory(log)
    requires forall g :: g in log ==> g.at <= h.at
    requires h.PurgeStarted? ==> SafeStart(log + [h], |log|)
    requires h.PurgeStarted? ==> forall g :: g in log && g.PurgeStarted? ==> g.key != h.key
    requires h.Reminded? ==> forall g :: g in log && g.Reminded? ==> g.key != h.key
    ensures SafeHistory(log + [h])
  {
    var grown := log + [h];
    forall j | 0 <= j < |grown| && grown[j].PurgeStarted?
      ensures SafeStart(grown, j)
    {
      if j < |log| {
        assert SafeStart(log, j);
        assert grown[..j] == log[..j];
      }
    }
  }

  lemma {:induction false} LastArchivingGrows(log: seq<Happening>, h: Happening, e: EventId)
    ensures LastArchiving(log + [h], e) ==
            (if h.Archived? && h.eventId == e then Some(h.at)
             else if h.Restored? && h.eventId == e then None
             else LastArchiving(log, e))
  {
    assert (log + [h])[..|log|] == log;
  }

  lemma {:induction false} LogGrows(db: Db, h: Happening)
    ensures forall e :: LastArchiving(db.log + [h], e) ==
                        (if h.Archived? && h.eventId == e then Some(h.at)
                         else if h.Restored? && h.eventId == e then None
                         else LastArchiving(db.log, e))
    ensures forall g :: g in db.log + [h] <==> g in db.log || g == h
  {
    forall e {
      LastArchivingGrows(db.log, h, e);
    }
  }

  // ── Each step keeps it ──

  lemma {:induction false} ArchiveKeeps(db: Db, e: EventId)
    requires ClaimInv(db) && EventLive(db, e)
    ensures ClaimInv(DoArchive(db, e))
  {
    var next := DoArchive(db, e);
    LogGrows(db, Archived(e, db.clock));
    HistoryGrows(db.log, Archived(e, db.clock));
    forall r, a | r in next.dueReads && ArchivedSince(next.rows, r.eventId, a) && a <= r.now - RETENTION_MS
      ensures StillDue(next.rows, PurgeKey(r.eventId, a), r.now)
    {
      assert r.eventId != e;
      assert ArchivedSince(db.rows, r.eventId, a);
    }
  }

  lemma {:induction false} RestoreKeeps(db: Db, e: EventId)
    requires ClaimInv(db) && e in db.rows.events
    ensures ClaimInv(DoRestore(db, e))
  {
    var next := DoRestore(db, e);
    LogGrows(db, Restored(e, db.clock));
    HistoryGrows(db.log, Restored(e, db.clock));
    forall r, a | r in next.dueReads && ArchivedSince(next.rows, r.eventId, a) && a <= r.now - RETENTION_MS
      ensures StillDue(next.rows, PurgeKey(r.eventId, a), r.now)
    {
      assert ArchivedSince(db.rows, r.eventId, a);
    }
  }

  lemma {:induction false} ReminderKeepsReads(db: Db, next: Db, key: PurgeKey)
    requires ReadsInv(db) && key !in db.rows.reminders && key in next.rows.reminders
    requires next.rows == db.rows.(reminders := db.rows.reminders[key := next.rows.reminders[key]])
    requires next.dueReads == db.dueReads && next.remindReads == db.remindReads && next.clock == db.clock
    ensures ReadsInv(next)
  {
    forall r, a | r in next.dueReads && ArchivedSince(next.rows, r.eventId, a) && a <= r.now - RETENTION_MS
      ensures StillDue(next.rows, PurgeKey(r.eventId, a), r.now)
    {
      assert ArchivedSince(db.rows, r.eventId, a);
      assert StillDue(db.rows, PurgeKey(r.eventId, a), r.now);
    }
  }

  lemma {:induction false} ReminderKeepsRows(db: Db, next: Db, h: Happening)
    requires RowsMatchLog(db) && h.Reminded? && h.key !in db.rows.reminders
    requires h.claimedAt <= h.at && h.claimedAt >= MediaPurgeReminderDueAt(h.key.archivedAt)
    requires next.rows == db.rows.(reminders := db.rows.reminders[h.key := h.claimedAt]) && next.log == db.log + [h]
    ensures RowsMatchLog(next)
  {
    forall key | key in next.rows.reminders
      ensures exists at :: Reminded(key, next.rows.reminders[key], at) in next.log
    {
      if key == h.key {
        assert Reminded(key, h.claimedAt, h.at) in next.log;
      } else {
        var at :| Reminded(key, db.rows.reminders[key], at) in db.log;
        assert Reminded(key, next.rows.reminders[key], at) in next.log;
      }
    }
    forall key | key in next.rows.purges
      ensures exists g :: g in next.log && g.PurgeStarted? && g.key == key
    {
      var g :| g in db.log && g.PurgeStarted? && g.key == key;
      assert g in next.log;
    }
  }

  lemma {:induction false} ClaimReminderKeeps(db: Db, read: RemindRead)
    requires ClaimInv(db) && read in db.remindReads
    ensures ClaimInv(DoClaimReminder(db, read))
  {
    var next := DoClaimReminder(db, read);
    if read.key !in db.rows.reminders {
      var h := Reminded(read.key, read.now, db.clock);
      LogGrows(db, h);
      HistoryGrows(db.log, h);
      ReminderKeepsReads(db, next, read.key);
      ReminderKeepsRows(db, next, h);
    }
  }

  /** What the claim's due query saw makes its start a safe one. */
  lemma {:induction false} StartIsSafe(db: Db, key: PurgeKey, reason: Reason, now: Time)
    requires ClaimInv(db) && now <= db.clock && ArchivedSince(db.rows, key.eventId, key.archivedAt) &&
               key !in db.rows.purges
    requires reason == RETENTION ==> key.archivedAt <= now - RETENTION_MS && DueRead(key.eventId, now) in db.dueReads
    ensures SafeStart(db.log + [PurgeStarted(key, reason, now, db.clock, !SomethingToDownload(db.rows, key.eventId))],
                      |db.log|)
  {
    var h := PurgeStarted(key, reason, now, db.clock, !SomethingToDownload(db.rows, key.eventId));
    assert (db.log + [h])[..|db.log|] == db.log;
    if reason == RETENTION && !h.nothingToDownload {
      assert StillDue(db.rows, key, now);
      var at :| Reminded(key, db.rows.reminders[key], at) in db.log;
      assert RemindedBefore(db.log, key, now - NOTICE_MS);
    }
  }

  /** A claim the sweep makes from what its due query saw, or a super admin's. */
  lemma {:induction false} ClaimPurgeKeeps(db: Db, e: EventId, reason: Reason, user: Option<string>,
      dueBy: Option<Time>, now: Time)
    requires ClaimInv(db) && now <= db.clock
    requires reason == RETENTION ==> dueBy == Some(now - RETENTION_MS) && DueRead(e, now) in db.dueReads
    ensures ClaimInv(DoClaim(db, e, reason, user, dueBy, now))
  {
    var next := DoClaim(db, e, reason, user, dueBy, now);
    if ClaimPurge(db.rows, e, reason, user, dueBy, now).1 == CLAIMED {
      var key := PurgeKey(e, db.rows.events[e].archivedAt.value);
      var h := PurgeStarted(key, reason, now, db.clock, !SomethingToDownload(db.rows, e));
      LogGrows(db, h);
      StartIsSafe(db, key, reason, now);
      HistoryGrows(db.log, h);
      ClaimKeepsReads(db, next, key);
      ClaimKeepsRows(db, next, h);
    }
  }

  lemma {:induction false} ClaimKeepsReads(db: Db, next: Db, key: PurgeKey)
    requires ReadsInv(db) && key !in db.rows.purges && key in next.rows.purges
    requires next.rows == db.rows.(purges := db.rows.purges[key := next.rows.purges[key]])
    requires next.dueReads == db.dueReads && next.remindReads == db.remindReads && next.clock == db.clock
    ensures ReadsInv(next)
  {
    forall r, a | r in next.dueReads && ArchivedSince(next.rows, r.eventId, a) && a <= r.now - RETENTION_MS
      ensures StillDue(next.rows, PurgeKey(r.eventId, a), r.now)
    {
      assert ArchivedSince(db.rows, r.eventId, a);
      assert StillDue(db.rows, PurgeKey(r.eventId, a), r.now);
    }
  }

  lemma {:induction false} ClaimKeepsRows(db: Db, next: Db, h: Happening)
    requires RowsMatchLog(db) && h.PurgeStarted? && h.key !in db.rows.purges && h.key in next.rows.purges
    requires next.rows == db.rows.(purges := db.rows.purges[h.key := next.rows.purges[h.key]])
    requires next.rows.purges[h.key].startedAt == h.startedAt && next.rows.purges[h.key].reason == h.reason
    requires next.log == db.log + [h]
    ensures RowsMatchLog(next)
  {
    forall key | key in next.rows.reminders
      ensures exists at :: Reminded(key, next.rows.reminders[key], at) in next.log
    {
      var at :| Reminded(key, db.rows.reminders[key], at) in db.log;
      assert Reminded(key, next.rows.reminders[key], at) in next.log;
    }
    forall key | key in next.rows.purges
      ensures exists g :: g in next.log && g.PurgeStarted? && g.key == key
    {
      if key == h.key {
        assert h in next.log;
      } else {
        var g :| g in db.log && g.PurgeStarted? && g.key == key;
        assert g in next.log;
      }
    }
  }

  lemma {:induction false} DueReadsKeep(db: Db, now: Time)
    requires ClaimInv(db) && now <= db.clock
    ensures ClaimInv(Next(db, QueryDue(now)))
  {
    var next := Next(db, QueryDue(now));
    forall r, a | r in next.dueReads && ArchivedSince(next.rows, r.eventId, a) && a <= r.now - RETENTION_MS
      ensures StillDue(next.rows, PurgeKey(r.eventId, a), r.now)
    {
      if r !in db.dueReads {
        assert r.eventId in DueEvents(db.rows, now) && r.now == now;
        assert DueForPurge(db.rows, r.eventId, a, now);
      }
    }
  }

  /** Steps that touch neither events, claims nor their log, and only take downloads away. */
  ghost predicate ClaimsUntouched(db: Db, next: Db) {
    && next.rows.events == db.rows.events
    && next.rows.reminders == db.rows.reminders
    && next.rows.purges.Keys == db.rows.purges.Keys
    && (forall key :: key in db.rows.purges ==>
          && next.rows.purges[key].startedAt == db.rows.purges[key].startedAt
          && next.rows.purges[key].reason == db.rows.purges[key].reason)
    && db.clock <= next.clock
    && next.dueReads == db.dueReads
    && (forall r :: r in next.remindReads ==>
          r in db.remindReads || (r.now <= db.clock && r.now >= MediaPurgeReminderDueAt(r.key.archivedAt)))
    && (next.log == db.log || exists key, batch :: next.log == db.log + [DeleteSent(key, batch, db.clock)])
    && (forall e :: SomethingToDownload(next.rows, e) && e in db.rows.events && db.rows.events[e].isArchived ==>
                    SomethingToDownload(db.rows, e))
  }

  lemma {:induction false} UntouchedKeeps(db: Db, next: Db)
    requires ClaimInv(db) && ClaimsUntouched(db, next)
    ensures ClaimInv(next)
  {
    if next.log != db.log {
      var key, batch :| next.log == db.log + [DeleteSent(key, batch, db.clock)];
      LogGrows(db, DeleteSent(key, batch, db.clock));
      HistoryGrows(db.log, DeleteSent(key, batch, db.clock));
    }
    forall r, a | r in next.dueReads && ArchivedSince(next.rows, r.eventId, a) && a <= r.now - RETENTION_MS
      ensures StillDue(next.rows, PurgeKey(r.eventId, a), r.now)
    {
      assert ArchivedSince(db.rows, r.eventId, a);
      assert StillDue(db.rows, PurgeKey(r.eventId, a), r.now);
    }
    assert forall h :: h in db.log ==> h in next.log;
    forall key | key in next.rows.reminders
      ensures exists at :: Reminded(key, next.rows.reminders[key], at) in next.log
    {
      var at :| Reminded(key, db.rows.reminders[key], at) in db.log;
      assert Reminded(key, next.rows.reminders[key], at) in next.log;
    }
    forall key | key in next.rows.purges
      ensures exists g :: g in next.log && g.PurgeStarted? && g.key == key
    {
      var g :| g in db.log && g.PurgeStarted? && g.key == key;
      assert g in next.log;
    }
  }

  lemma {:induction false} HubChangeKeeps(db: Db, e: EventId, live: bool)
    requires ClaimInv(db) && EventLive(db, e)
    ensures ClaimInv(Next(db, SetHubLive(e, live)))
  {
    var next := Next(db, SetHubLive(e, live));
    forall r, a | r in next.dueReads && ArchivedSince(next.rows, r.eventId, a) && a <= r.now - RETENTION_MS
      ensures StillDue(next.rows, PurgeKey(r.eventId, a), r.now)
    {
      assert ArchivedSince(db.rows, r.eventId, a);
      assert StillDue(db.rows, PurgeKey(r.eventId, a), r.now);
    }
  }

  /** An item written to a live event leaves every archived event's downloads alone. */
  lemma {:induction false} ItemWriteUntouched(db: Db, i: ItemId, item: Item)
    requires ClaimInv(db) && EventLive(db, item.eventId)
    requires i in db.rows.items ==> db.rows.items[i].eventId == item.eventId
    ensures ClaimsUntouched(db, WithItem(db, i, item))
  {
  }

  lemma {:induction false} MarkUntouched(db: Db, k: nat)
    requires k < |db.attempts|
    ensures ClaimsUntouched(db, DoMark(db, k))
  {
    var next := DoMark(db, k);
    forall e | SomethingToDownload(next.rows, e)
      ensures SomethingToDownload(db.rows, e)
    {
      var i :| i in next.rows.items && CanDownload(next.rows.items[i], e);
      assert CanDownload(db.rows.items[i], e);
    }
  }

  /** Steps that work an attempt, or only look: nothing the claims rest on changes. */
  predicate LeavesClaims(step: Step) {
    step.Tick? || step.ReadForReminder? || step.LeasePurge? || step.ReadItems? || step.DeleteBatch?
    || step.FinishRun? || step.AbortRun? || step.CrashRun?
  }

  /** A write to one purge row that keeps its start and reason. */
  lemma {:induction false} PurgeWriteUntouched(db: Db, next: Db, key: PurgeKey, p: Purge)
    requires key in db.rows.purges
    requires p.startedAt == db.rows.purges[key].startedAt && p.reason == db.rows.purges[key].reason
    requires next.rows == db.rows.(purges := db.rows.purges[key := p])
    requires next.clock == db.clock && next.dueReads == db.dueReads && next.remindReads == db.remindReads
    requires next.log == db.log
    ensures ClaimsUntouched(db, next)
  {
  }

  lemma {:induction false} AttemptStepUntouched(db: Db, step: Step)
    requires LeavesClaims(step) && Enabled(db, step)
    ensures ClaimsUntouched(db, Next(db, step))
  {
    var next := Next(db, step);
    match step {
      case LeasePurge(key, now) =>
        if next != db {
          PurgeWriteUntouched(db, next, key, next.rows.purges[key]);
        }
      case FinishRun(k) =>
        var key := db.attempts[k].key;
        PurgeWriteUntouched(db, next, key, next.rows.purges[key]);
      case AbortRun(k) =>
        var key := db.attempts[k].key;
        PurgeWriteUntouched(db, next, key, next.rows.purges[key]);
      case DeleteBatch(k, _) =>
        assert next.log == db.log + [DeleteSent(db.attempts[k].key, db.attempts[k].batches[0], db.clock)];
      case _ =>
    }
  }

  lemma {:induction false} StepKeepsClaimInv(db: Db, step: Step)
    requires ClaimInv(db)
    ensures ClaimInv(Next(db, step))
  {
    if Enabled(db, step) {
      if LeavesClaims(step) {
        AttemptStepUntouched(db, step);
        UntouchedKeeps(db, Next(db, step));
      } else {
        ClaimStepKeeps(db, step);
      }
    }
  }

  lemma {:induction false} ClaimStepKeeps(db: Db, step: Step)
    requires ClaimInv(db) && Enabled(db, step) && !LeavesClaims(step)
    ensures ClaimInv(Next(db, step))
  {
    match step {
      case ArchiveEvent(e) => ArchiveKeeps(db, e);
      case RestoreEvent(e) => RestoreKeeps(db, e);
      case ClaimReminderFor(read) => ClaimReminderKeeps(db, read);
      case ClaimDue(due) =>
        ClaimPurgeKeeps(db, due.eventId, RETENTION, None, Some(due.now - RETENTION_MS), due.now);
      case ClaimNow(e, userId, now) => ClaimPurgeKeeps(db, e, SUPER_ADMIN, Some(userId), None, now);
      case QueryDue(now) => DueReadsKeep(db, now);
      case SetHubLive(e, live) => HubChangeKeeps(db, e, live);
      case MarkDone(k) =>
        MarkUntouched(db, k);
        UntouchedKeeps(db, DoMark(db, k));
      case AddItem(i, e, publicId, inFolder, mediaType) =>
        var item := Item(e, publicId, inFolder, mediaType, false, false, db.clock, None, None);
        ItemWriteUntouched(db, i, item);
        UntouchedKeeps(db, WithItem(db, i, item));
      case EditItem(i, approved, isArchived) =>
        var item := db.rows.items[i].(approved := approved, isArchived := isArchived);
        ItemWriteUntouched(db, i, item);
        UntouchedKeeps(db, WithItem(db, i, item));
    }
  }

  lemma {:induction false} RunKeepsClaimInv(db: Db, steps: seq<Step>)
    requires ClaimInv(db)
    ensures ClaimInv(Exec(db, steps))
    decreases |steps|
  {
    if steps != [] {
      StepKeepsClaimInv(db, steps[0]);
      RunKeepsClaimInv(Next(db, steps[0]), steps[1..]);
    }
  }

  /** Over every run from the start, the history is safe. */
  lemma {:induction false} EveryRunIsSafe(db: Db, steps: seq<Step>)
    requires Init(db)
    ensures SafeHistory(Exec(db, steps).log)
  {
    InitHoldsClaimInv(db);
    RunKeepsClaimInv(db, steps);
  }

  lemma {:induction false} ArchivedAfterRestore(log: seq<Happening>, i: nat, n: nat, e: EventId, a: Time)
    requires i < n <= |log| && log[i].Restored? && log[i].eventId == e
    requires LastArchiving(log[..n], e) == Some(a)
    ensures exists m :: i < m < n && log[m] == Archived(e, a)
    decreases n
  {
    assert log[..n][..n - 1] == log[..n - 1];
    var last := log[n - 1];
    if last.Archived? && last.eventId == e {
      assert log[n - 1] == Archived(e, a);
    } else {
      assert i < n - 1;
      ArchivedAfterRestore(log, i, n - 1, e, a);
    }
  }

  /** A restore before the claim prevents it for good: a purge that starts after
      a restore belongs to an archiving made at or after that restore. */
  lemma {:induction false} RestorePreventsPurge(db: Db, steps: seq<Step>, i: nat, j: nat)
    requires Init(db)
    requires var log := Exec(db, steps).log;
             && i < j < |log| && log[i].Restored? && log[j].PurgeStarted? && log[j].key.eventId == log[i].eventId
    ensures var log := Exec(db, steps).log; log[j].key.archivedAt >= log[i].at
  {
    EveryRunIsSafe(db, steps);
    var log := Exec(db, steps).log;
    assert SafeStart(log, j);
    ArchivedAfterRestore(log, i, j, log[i].eventId, log[j].key.archivedAt);
  }
}
