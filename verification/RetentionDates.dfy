/** When an archived event's Memory Hub media is deleted: the due dates, and
    the countdown an event view shows. */
module RetentionDates {
  import opened Prelude

  const MEDIA_RETENTION_DAYS: int := 30
  const MEDIA_PURGE_REMINDER_DAYS_BEFORE: int := 7
  const RETENTION_MS: int := MEDIA_RETENTION_DAYS * DAY_MS
  const NOTICE_MS: int := MEDIA_PURGE_REMINDER_DAYS_BEFORE * DAY_MS

  function MediaPurgeDueAt(archivedAt: Time, remindedAt: Option<Time>): Time {
    Max(archivedAt + RETENTION_MS, if remindedAt.Some? then remindedAt.value + NOTICE_MS else 0)
  }

  function MediaPurgeReminderDueAt(archivedAt: Time): Time {
    archivedAt + (MEDIA_RETENTION_DAYS - MEDIA_PURGE_REMINDER_DAYS_BEFORE) * DAY_MS
  }

  /** The sweep's two cutoffs for a reminded event, as the due query compares them. */
  predicate PastBothCutoffs(archivedAt: Time, remindedAt: Time, now: Time) {
    archivedAt <= now - RETENTION_MS && remindedAt <= now - NOTICE_MS
  }

  /** The date the reminder email gives is the first instant the due query takes
      the event: at it and ever after both cutoffs hold, before it never both. */
  lemma {:induction false} EmailedDateIsFirstDueInstant(archivedAt: Time, remindedAt: Time, now: Time)
    ensures MediaPurgeDueAt(archivedAt, Some(remindedAt)) <= now <==> PastBothCutoffs(archivedAt, remindedAt, now)
    ensures PastBothCutoffs(archivedAt, remindedAt, MediaPurgeDueAt(archivedAt, Some(remindedAt)))
  {
    assert archivedAt + RETENTION_MS <= now <==> archivedAt <= now - RETENTION_MS;
  }

  /** scheduledPurgeAt: the date shown while no purge has begun. */
  function ScheduledPurgeAt(enabled: bool, archivedAt: Time, remindedAt: Option<Time>, now: Time): Option<Time> {
    if !enabled then None
    else if remindedAt.Some? then Some(MediaPurgeDueAt(archivedAt, remindedAt))
    else if now >= MediaPurgeReminderDueAt(archivedAt) then Some(MediaPurgeDueAt(archivedAt, Some(now)))
    else Some(MediaPurgeDueAt(archivedAt, None))
  }

  /** What is shown: nothing while the purges are switched off, and else the later of 30 days
      after the archiving and a week after the reminder, or after now while there is none. */
  lemma {:induction false} ShownExactly(enabled: bool, archivedAt: Time, remindedAt: Option<Time>, now: Time)
    requires archivedAt >= 0
    ensures var reminded := if remindedAt.Some? then remindedAt.value else now;
            var (retained, noticed) := (archivedAt + 30 * DAY_MS, reminded + 7 * DAY_MS);
            ScheduledPurgeAt(enabled, archivedAt, remindedAt, now) ==
            if !enabled then None else Some(if noticed > retained then noticed else retained)
  {
  }
}
