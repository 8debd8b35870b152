/** The retention protocol as a state machine: organisers archive, restore and
    edit; any number of sweeps and servers remind, claim, lease, delete and
    finish. Each query, conditional write or external call is one step, taken
    in any order, under one clock that never goes back. */
module RetentionProtocol {
  import opened Prelude
  import opened RetentionDates
  import opened RetentionTables

  const CLOUDINARY_DELETE_BATCH_LIMIT: nat := 100
  const MEDIA_PURGE_LEASE_MS: int := 10 * 60 * 1000

  datatype AttemptStatus = Leased | Working | Finished | Aborted | Crashed

  /** One run of runPurge: `marking` are the rows it is about to mark,
      `batches` the deletions still to send, `failed` its failedIds. */
  datatype Attempt = Attempt(
    key: PurgeKey, now: Time, status: AttemptStatus, readAt: Time,
    marking: set<ItemId>, batches: seq<seq<ItemId>>, failed: set<ItemId>, purgedCount: nat)

  /** A Cloudinary answer: refused whole, or what it reports deleted (a missing asset included). */
  datatype Reply = Refused | Answered(deleted: set<string>)

  datatype RemindRead = RemindRead(key: PurgeKey, now: Time)
  datatype DueRead = DueRead(eventId: EventId, now: Time)

  datatype Happening =
    | Archived(eventId: EventId, at: Time)
    | Restored(eventId: EventId, at: Time)
    | Reminded(key: PurgeKey, claimedAt: Time, at: Time)
    | PurgeStarted(key: PurgeKey, reason: Reason, startedAt: Time, at: Time, nothingToDownload: bool)
    | DeleteSent(key: PurgeKey, batch: seq<ItemId>, at: Time)

  datatype Db = Db(
    clock: Time, rows: Tables, gone: set<string>, attempts: seq<Attempt>,
    remindReads: set<RemindRead>, dueReads: set<DueRead>, log: seq<Happening>)

  datatype Step =
    | Tick(to: Time)
    | ArchiveEvent(eventId: EventId)
    | RestoreEvent(eventId: EventId)
    | AddItem(itemId: ItemId, eventId: EventId, publicId: string, inFolder: bool, mediaType: MediaType)
    | EditItem(itemId: ItemId, approved: bool, isArchived: bool)
    | SetHubLive(eventId: EventId, live: bool)
    | ReadForReminder(eventId: EventId, now: Time)
    | ClaimReminderFor(read: RemindRead)
    | QueryDue(now: Time)
    | ClaimDue(due: DueRead)
    | ClaimNow(eventId: EventId, userId: string, now: Time)
    | LeasePurge(key: PurgeKey, now: Time)
    | ReadItems(attempt: nat, rows: seq<ItemId>)
    | DeleteBatch(attempt: nat, reply: Reply)
    | MarkDone(attempt: nat)
    | FinishRun(attempt: nat)
    | AbortRun(attempt: nat)
    | CrashRun(attempt: nat)

  // ── What runPurge makes of the rows it reads ──

  /** chunk: consecutive slices of at most `size`. */
  function Chunk(items: seq<ItemId>, size: nat): (chunks: seq<seq<ItemId>>)
    requires size > 0
    ensures Flatten(chunks) == items
  {
    if items == [] then []
    else if |items| <= size then
      assert Flatten([items]) == items + Flatten([]);
      [items]
    else
      assert items == items[..size] + items[size..];
      [items[..size]] + Chunk(items[size..], size)
  }

  lemma {:induction false} ChunkSizes(items: seq<ItemId>, size: nat)
    requires size > 0
    ensures forall c :: c in Chunk(items, size) ==> 0 < |c| <= size
    ensures forall n :: 0 <= n < |Chunk(items, size)| - 1 ==> |Chunk(items, size)[n]| == size
  {
    if |items| > size {
      ChunkSizes(items[size..], size);
    }
  }

  function Flatten(chunks: seq<seq<ItemId>>): seq<ItemId> {
    if chunks == [] then [] else chunks[0] + Flatten(chunks[1..])
  }

  lemma {:induction false} FlattenConcat(x: seq<seq<ItemId>>, y: seq<seq<ItemId>>)
    ensures Flatten(x + y) == Flatten(x) + Flatten(y)
  {
    if x == [] {
      assert x + y == y;
    } else {
      assert (x + y)[1..] == x[1..] + y;
      FlattenConcat(x[1..], y);
    }
  }

  lemma {:induction false} ChunksInFlatten(chunks: seq<seq<ItemId>>, c: seq<ItemId>, i: ItemId)
    requires c in chunks && i in c
    ensures i in Flatten(chunks)
  {
    if chunks[0] != c {
      ChunksInFlatten(chunks[1..], c, i);
    }
  }

  function OfType(rows: seq<ItemId>, items: map<ItemId, Item>, mediaType: MediaType): (r: seq<ItemId>)
    ensures forall i :: i in r <==> i in rows && i in items && items[i].inFolder && items[i].mediaType == mediaType
  {
    if rows == [] then []
    else
      var rest := OfType(rows[1..], items, mediaType);
      if rows[0] in items && items[rows[0]].inFolder && items[rows[0]].mediaType == mediaType
      then [rows[0]] + rest else rest
  }

  /** Stored ids that are not in the event's folder: hidden, never sent. */
  function Outside(rows: seq<ItemId>, items: map<ItemId, Item>): set<ItemId> {
    set i | i in rows && i in items && !items[i].inFolder
  }

  function DeleteBatches(rows: seq<ItemId>, items: map<ItemId, Item>): seq<seq<ItemId>> {
    Chunk(OfType(rows, items, IMAGE), CLOUDINARY_DELETE_BATCH_LIMIT)
    + Chunk(OfType(rows, items, VIDEO), CLOUDINARY_DELETE_BATCH_LIMIT)
  }

  function AfterRead(a: Attempt, items: map<ItemId, Item>, rows: seq<ItemId>, readAt: Time): Attempt {
    a.(status := Working, readAt := readAt, marking := Outside(rows, items), batches := DeleteBatches(rows, items))
  }

  predicate Confirms(reply: Reply, publicId: string) {
    reply.Answered? && publicId in reply.deleted
  }

  /** The batch's items whose asset the answer says is gone. */
  function Done(batch: seq<ItemId>, items: map<ItemId, Item>, reply: Reply): set<ItemId> {
    set i | i in batch && i in items && Confirms(reply, items[i].publicId)
  }

  function AfterDelete(a: Attempt, items: map<ItemId, Item>, reply: Reply): Attempt
    requires a.batches != []
  {
    var batch := a.batches[0];
    var done := Done(batch, items, reply);
    a.(batches := a.batches[1..], marking := done, failed := a.failed + (set i | i in batch && i !in done))
  }

  function AfterMark(a: Attempt, count: nat): Attempt {
    a.(marking := {}, purgedCount := a.purgedCount + count)
  }

  predicate AllSent(a: Attempt) {
    a.status == Working && a.marking == {} && a.batches == []
  }

  function CompletedAt(a: Attempt): Option<Time> {
    if a.failed == {} then Some(a.now) else None
  }

  // ── The steps ──

  predicate EventLive(db: Db, e: EventId) {
    e in db.rows.events && !db.rows.events[e].isArchived
  }

  ghost predicate Enabled(db: Db, step: Step) {
    match step
    case Tick(to) => db.clock <= to
    // An archive looks the event up live, a restore looks it up archived.
    case ArchiveEvent(e) => EventLive(db, e)
    case RestoreEvent(e) => e in db.rows.events && db.rows.events[e].isArchived
    // Uploads, moderation and hub changes are refused on an archived event.
    case AddItem(i, e, _, _, _) => EventLive(db, e) && i !in db.rows.items
    case EditItem(i, _, _) =>
      i in db.rows.items && EventLive(db, db.rows.items[i].eventId) && db.rows.items[i].purgedAt.None?
    case SetHubLive(e, _) => EventLive(db, e)
    case ReadForReminder(e, now) =>
      && now <= db.clock && e in db.rows.events && db.rows.events[e].isArchived && db.rows.events[e].archivedAt.Some?
      && now >= MediaPurgeReminderDueAt(db.rows.events[e].archivedAt.value)
      && PurgeKey(e, db.rows.events[e].archivedAt.value) !in db.rows.purges
      && SomethingToDownload(db.rows, e)
    case ClaimReminderFor(read) => read in db.remindReads
    case QueryDue(now) => now <= db.clock
    case ClaimDue(read) => read in db.dueReads
    case ClaimNow(_, _, now) => now <= db.clock
    case LeasePurge(_, now) => now <= db.clock
    case ReadItems(k, rows) =>
      && k < |db.attempts| && db.attempts[k].status == Leased && db.attempts[k].key in db.rows.purges
      && IsItemsToPurge(db.rows, db.attempts[k].key, rows)
    case DeleteBatch(k, _) =>
      k < |db.attempts| && db.attempts[k].status == Working && db.attempts[k].marking == {} &&
          db.attempts[k].batches != []
    case MarkDone(k) => k < |db.attempts| && db.attempts[k].status == Working
    case FinishRun(k) => k < |db.attempts| && AllSent(db.attempts[k]) && db.attempts[k].key in db.rows.purges
    case AbortRun(k) =>
      k < |db.attempts| && db.attempts[k].status in {Leased, Working} && db.attempts[k].key in db.rows.purges
    case CrashRun(k) => k < |db.attempts| && db.attempts[k].status in {Leased, Working}
  }

  function DoArchive(db: Db, e: EventId): Db
    requires EventLive(db, e)
  {
    db.(rows := Archive(db.rows, e, db.clock), log := db.log + [Archived(e, db.clock)])
  }

  function DoRestore(db: Db, e: EventId): Db
    requires e in db.rows.events
  {
    db.(rows := Reactivate(db.rows, e), log := db.log + [Restored(e, db.clock)])
  }

  function WithItem(db: Db, i: ItemId, item: Item): Db {
    db.(rows := db.rows.(items := db.rows.items[i := item]))
  }

  function DoClaimReminder(db: Db, read: RemindRead): Db {
    var (rows, claimed) := ClaimReminder(db.rows, read.key, read.now);
    if claimed then db.(rows := rows, log := db.log + [Reminded(read.key, read.now, db.clock)]) else db
  }

  function DoClaim(db: Db, e: EventId, reason: Reason, user: Option<string>, dueBy: Option<Time>, now: Time): Db {
    var (rows, outcome) := ClaimPurge(db.rows, e, reason, user, dueBy, now);
    if outcome != CLAIMED then db
    else
      var key := PurgeKey(e, db.rows.events[e].archivedAt.value);
      db.(rows := rows,
          log := db.log + [PurgeStarted(key, reason, now, db.clock, !SomethingToDownload(db.rows, e))])
  }

  function DoLease(db: Db, key: PurgeKey, now: Time): Db {
    var (rows, taken) := TakeLease(db.rows, key, now, now + MEDIA_PURGE_LEASE_MS);
    if taken then db.(rows := rows, attempts := db.attempts + [Attempt(key, now, Leased, 0, {}, [], {}, 0)]) else db
  }

  function DoDelete(db: Db, k: nat, reply: Reply): Db
    requires k < |db.attempts| && db.attempts[k].batches != []
  {
    var a := db.attempts[k];
    var batch := a.batches[0];
    var confirmed := set i | i in Done(batch, db.rows.items, reply) && i in db.rows.items :: db.rows.items[i].publicId;
    db.(attempts := db.attempts[k := AfterDelete(a, db.rows.items, reply)],
        gone := db.gone + confirmed,
        log := db.log + [DeleteSent(a.key, batch, db.clock)])
  }

  function DoMark(db: Db, k: nat): Db
    requires k < |db.attempts|
  {
    var a := db.attempts[k];
    var (rows, count) := MarkItemsPurged(db.rows, a.marking, a.now, a.key);
    db.(rows := rows, attempts := db.attempts[k := AfterMark(a, count)])
  }

  /** The end of an attempt: everything sent (completed when nothing failed), or a
      database failure part-way, which leaves completedAt empty. */
  function DoFinish(db: Db, k: nat): Db
    requires k < |db.attempts| && db.attempts[k].key in db.rows.purges
  {
    var a := db.attempts[k];
    db.(rows := FinishAttempt(db.rows, a.key, a.purgedCount, |a.failed|, CompletedAt(a)),
        attempts := db.attempts[k := a.(status := Finished)])
  }

  function DoAbort(db: Db, k: nat): Db
    requires k < |db.attempts| && db.attempts[k].key in db.rows.purges
  {
    var a := db.attempts[k];
    db.(rows := FinishAttempt(db.rows, a.key, a.purgedCount, db.rows.purges[a.key].failedCount, None),
        attempts := db.attempts[k := a.(status := Aborted)])
  }

  function DoCrash(db: Db, k: nat): Db
    requires k < |db.attempts|
  {
    db.(attempts := db.attempts[k := db.attempts[k].(status := Crashed)])
  }

  ghost function Next(db: Db, step: Step): Db {
    if !Enabled(db, step) then db
    else
      match step
      case Tick(to) => db.(clock := to)
      case ArchiveEvent(e) => DoArchive(db, e)
      case RestoreEvent(e) => DoRestore(db, e)
      case AddItem(i, e, publicId, inFolder, mediaType) =>
        WithItem(db, i, Item(e, publicId, inFolder, mediaType, false, false, db.clock, None, None))
      case EditItem(i, approved, isArchived) =>
        WithItem(db, i, db.rows.items[i].(approved := approved, isArchived := isArchived))
      case SetHubLive(e, live) =>
        db.(rows := db.rows.(events := db.rows.events[e := db.rows.events[e].(hubLive := live)]))
      case ReadForReminder(e, now) =>
        db.(remindReads := db.remindReads + {RemindRead(PurgeKey(e, db.rows.events[e].archivedAt.value), now)})
      case ClaimReminderFor(read) => DoClaimReminder(db, read)
      case QueryDue(now) =>
        db.(dueReads := db.dueReads + (set e | e in DueEvents(db.rows, now) :: DueRead(e, now)))
      case ClaimDue(read) =>
        DoClaim(db, read.eventId, RETENTION, None, Some(read.now - RETENTION_MS), read.now)
      case ClaimNow(e, userId, now) => DoClaim(db, e, SUPER_ADMIN, Some(userId), None, now)
      case LeasePurge(key, now) => DoLease(db, key, now)
      case ReadItems(k, rows) =>
        db.(attempts := db.attempts[k := AfterRead(db.attempts[k], db.rows.items, rows, db.clock)])
      case DeleteBatch(k, reply) => DoDelete(db, k, reply)
      case MarkDone(k) => DoMark(db, k)
      case FinishRun(k) => DoFinish(db, k)
      case AbortRun(k) => DoAbort(db, k)
      case CrashRun(k) => DoCrash(db, k)
  }

  ghost function Exec(db: Db, steps: seq<Step>): Db
    decreases |steps|
  {
    if steps == [] then db else Exec(Next(db, steps[0]), steps[1..])
  }

  /** A database before anything was archived under these rules. Events archived
      earlier were given the migration's time: an ArchiveEvent step then. */
  ghost predicate Init(db: Db) {
    && 0 <= db.clock
    && (forall e :: e in db.rows.events ==> !db.rows.events[e].isArchived)
    && db.rows.reminders == map[] && db.rows.purges == map[]
    && (forall i :: i in db.rows.items ==>
          db.rows.items[i].purgedAt.None? && db.rows.items[i].purgedBy.None? && db.rows.items[i].createdAt <= db.clock)
    && db.gone == {} && db.attempts == [] && db.remindReads == {} && db.dueReads == {} && db.log == []
  }

  /** An answer's own list decides: the batch's items whose files it says are gone are to be
      marked, and the others, or all of a batch that got no answer, have failed. */
  lemma {:induction false} AnswerDecides(db: Db, k: nat, reply: Reply)
    requires Enabled(db, DeleteBatch(k, reply)) && forall i :: i in db.attempts[k].batches[0] ==> i in db.rows.items
    ensures var a, next := db.attempts[k], Next(db, DeleteBatch(k, reply));
            var deleted := if reply.Answered? then reply.deleted else {};
            && next.rows == db.rows && |next.attempts| == |db.attempts|
            && (forall i :: i in next.attempts[k].marking <==>
                              i in a.batches[0] && db.rows.items[i].publicId in deleted)
            && (forall i :: i in next.attempts[k].failed <==>
                              i in a.failed || (i in a.batches[0] && db.rows.items[i].publicId !in deleted))
            && next.attempts[k].batches == a.batches[1..]
            && (forall p :: p in next.gone <==>
                  p in db.gone || (p in deleted && exists i :: i in a.batches[0] && db.rows.items[i].publicId == p))
  {
  }

  /** What a step adds to the history: the archive, restore or deletion it is, and the
      reminder or purge exactly when a row for it is new. */
  ghost function NewEntries(before: Tables, after: Tables, step: Step, clock: Time): set<Happening> {
    (match step
     case ArchiveEvent(e) => {Archived(e, clock)}
     case RestoreEvent(e) => {Restored(e, clock)}
     case _ => {})
    + (set key | key in after.reminders && key !in before.reminders :: Reminded(key, after.reminders[key], clock))
    + (set key | key in after.purges && key !in before.purges ::
         PurgeStarted(key, after.purges[key].reason, after.purges[key].startedAt, clock,
                      !SomethingToDownload(before, key.eventId)))
  }

  lemma {:induction false} DeletionsAreKept(db: Db, k: nat, reply: Reply)
    requires Enabled(db, DeleteBatch(k, reply))
    ensures Next(db, DeleteBatch(k, reply)).log ==
              db.log + [DeleteSent(db.attempts[k].key, db.attempts[k].batches[0], db.clock)]
  {
  }

  /** The history misses nothing: every archive, restore, reminder and purge is added to it as it happens. */
  lemma {:induction false} NothingIsMissed(db: Db, step: Step)
    requires Enabled(db, step) && !step.DeleteBatch?
    ensures var next := Next(db, step);
            && db.log <= next.log
            && (set h | h in next.log[|db.log|..]) == NewEntries(db.rows, next.rows, step, db.clock)
  {
    if step.ClaimReminderFor? {
      ReminderIsKept(db, step.read);
    }
  }

  lemma {:induction false} ReminderIsKept(db: Db, read: RemindRead)
    requires read in db.remindReads
    ensures var next := Next(db, ClaimReminderFor(read));
            && db.log <= next.log
            && (set h | h in next.log[|db.log|..]) == NewEntries(db.rows, next.rows, ClaimReminderFor(read), db.clock)
  {
  }

  /** A crash ends its attempt and releases nothing; a hub opened or closed changes nothing else. */
  lemma {:induction false} SmallSteps(db: Db, k: nat, e: EventId, live: bool)
    ensures Enabled(db, CrashRun(k)) ==>
              Next(db, CrashRun(k)) == db.(attempts := db.attempts[k := db.attempts[k].(status := Crashed)])
    ensures Enabled(db, SetHubLive(e, live)) ==>
              var next := Next(db, SetHubLive(e, live));
              && next.rows.events.Keys == db.rows.events.Keys && next.rows.events[e].hubLive == live
              && next == db.(rows := db.rows.(events := next.rows.events))
  {
  }

  // ── Runs, one step after another ──

  ghost predicate Reaches(db: Db, end: Db) {
    exists steps: seq<Step> :: Exec(db, steps) == end
  }

  lemma {:induction false} ExecAppend(db: Db, steps: seq<Step>, step: Step)
    ensures Exec(db, steps + [step]) == Next(Exec(db, steps), step)
    decreases |steps|
  {
    if steps == [] {
      assert ([] + [step])[1..] == [];
    } else {
      assert (steps + [step])[1..] == steps[1..] + [step];
      ExecAppend(Next(db, steps[0]), steps[1..], step);
    }
  }

  lemma {:induction false} ReachStep(db: Db, middle: Db, step: Step)
    requires Reaches(db, middle)
    ensures Reaches(db, Next(middle, step))
  {
    var steps: seq<Step> :| Exec(db, steps) == middle;
    ExecAppend(db, steps, step);
  }

  /** One live event with an empty hub, at time 0. */
  ghost function OneEvent(): (db: Db)
    ensures Init(db)
  {
    Db(0, Tables(map["e" := EventRow(false, None, true)], map[], map[], map[]), {}, [], {}, {}, [])
  }
}
