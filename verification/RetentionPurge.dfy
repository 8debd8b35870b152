/** What every run keeps about the purges themselves, under failures, crashes and
    overlapping attempts: what is sent for deletion, what is marked, what
    "completed" means, and how the counts add up. */
module RetentionPurge {
  import opened Prelude
  import opened RetentionDates
  import opened RetentionTables
  import opened RetentionProtocol
  import opened RetentionSafety

  // ── The invariant ──

  /** An item this purge may touch. */
  ghost predicate InScope(db: Db, key: PurgeKey, i: ItemId) {
    && key in db.rows.purges && i in db.rows.items
    && db.rows.items[i].eventId == key.eventId
    && db.rows.items[i].createdAt <= db.rows.purges[key].startedAt
  }

  /** Only a file in the event's folder needs deleting, and a deletion must be confirmed. */
  ghost predicate FileGone(db: Db, i: ItemId)
    requires i in db.rows.items
  {
    db.rows.items[i].inFolder ==> db.rows.items[i].publicId in db.gone
  }

  /** A deletion request: within the limit, one media type, nothing outside the folder or the purge. */
  ghost predicate BatchOk(db: Db, key: PurgeKey, batch: seq<ItemId>) {
    && 0 < |batch| <= CLOUDINARY_DELETE_BATCH_LIMIT
    && (forall i :: i in batch ==> InScope(db, key, i) && db.rows.items[i].inFolder)
    && (forall i, j :: i in batch && j in batch ==> db.rows.items[i].mediaType == db.rows.items[j].mediaType)
  }

  ghost predicate Accounted(db: Db, a: Attempt, i: ItemId)
    requires i in db.rows.items
  {
    db.rows.items[i].purgedAt.Some? || i in a.marking || i in Flatten(a.batches) || i in a.failed
  }

  ghost predicate AttemptOk(db: Db, a: Attempt) {
    && a.key in db.rows.purges
    && (a.status == Leased ==> a.purgedCount == 0 && a.marking == {} && a.batches == [] && a.failed == {})
    && (forall i :: i in a.marking ==> InScope(db, a.key, i) && FileGone(db, i))
    && (forall b :: b in a.batches ==> BatchOk(db, a.key, b))
    && (a.status == Finished ==> a.marking == {} && a.batches == [])
    && (a.status in {Working, Finished} ==>
          && db.rows.purges[a.key].startedAt <= a.readAt <= db.clock
          && forall i :: InScope(db, a.key, i) && db.rows.items[i].createdAt < a.readAt ==> Accounted(db, a, i))
  }

  ghost predicate ItemsOk(db: Db) {
    && (forall i :: i in db.rows.items ==> db.rows.items[i].createdAt <= db.clock)
    && (forall i :: i in db.rows.items ==> (db.rows.items[i].purgedAt.None? <==> db.rows.items[i].purgedBy.None?))
    && (forall i :: i in db.rows.items && db.rows.items[i].purgedBy.Some? ==>
          InScope(db, db.rows.items[i].purgedBy.value, i) && FileGone(db, i) && db.rows.items[i].isArchived)
    && (forall key :: key in db.rows.purges ==> db.rows.purges[key].startedAt <= db.clock)
  }

  ghost predicate SentOk(db: Db) {
    forall h :: h in db.log && h.DeleteSent? ==> BatchOk(db, h.key, h.batch)
  }

  ghost predicate FinishedClean(db: Db, key: PurgeKey, k: nat) {
    k < |db.attempts| && db.attempts[k].key == key && db.attempts[k].status == Finished && db.attempts[k].failed == {}
  }

  ghost predicate CompletedOk(db: Db) {
    forall key :: key in db.rows.purges && db.rows.purges[key].completedAt.Some? ==>
        exists k: nat :: FinishedClean(db, key, k)
  }

  function MarkedBy(items: map<ItemId, Item>, key: PurgeKey): set<ItemId> {
    set i | i in items && items[i].purgedBy == Some(key)
  }

  /** Rows marked by attempts on this purge that have not been reported by finishAttempt. */
  function Unreported(attempts: seq<Attempt>, key: PurgeKey): nat {
    if attempts == [] then 0
    else
      var a := attempts[|attempts| - 1];
      Unreported(attempts[..|attempts| - 1], key)
      + (if a.key == key && a.status !in {Finished, Aborted} then a.purgedCount else 0)
  }

  ghost predicate CountsOk(db: Db) {
    forall key :: key in db.rows.purges ==>
      db.rows.purges[key].purgedCount + Unreported(db.attempts, key) == |MarkedBy(db.rows.items, key)|
  }

  ghost predicate PurgeInv(db: Db) {
    && ItemsOk(db) && SentOk(db) && CompletedOk(db) && CountsOk(db)
    && (forall k :: 0 <= k < |db.attempts| ==> AttemptOk(db, db.attempts[k]))
  }

  // ── How rows may change from one state to the next ──

  ghost predicate Grows(db: Db, next: Db) {
    && db.clock <= next.clock && db.gone <= next.gone
    && db.rows.purges.Keys <= next.rows.purges.Keys
    && (forall key :: key in db.rows.purges ==> next.rows.purges[key].startedAt == db.rows.purges[key].startedAt)
    && db.rows.items.Keys <= next.rows.items.Keys
    && (forall i :: i in next.rows.items ==>
          if i in db.rows.items then
            && next.rows.items[i].eventId == db.rows.items[i].eventId
            && next.rows.items[i].createdAt == db.rows.items[i].createdAt
            && next.rows.items[i].inFolder == db.rows.items[i].inFolder
            && next.rows.items[i].publicId == db.rows.items[i].publicId
            && next.rows.items[i].mediaType == db.rows.items[i].mediaType
            && (db.rows.items[i].purgedAt.Some? ==> next.rows.items[i].purgedAt.Some?)
          else next.rows.items[i].createdAt == db.clock)
  }

  lemma {:induction false} BatchStaysOk(db: Db, next: Db, key: PurgeKey, batch: seq<ItemId>)
    requires Grows(db, next) && BatchOk(db, key, batch)
    ensures BatchOk(next, key, batch)
  {
    forall i | i in batch
      ensures InScope(next, key, i) && next.rows.items[i].inFolder
    {
      assert InScope(db, key, i);
    }
  }

  lemma {:induction false} AttemptStaysOk(db: Db, next: Db, a: Attempt)
    requires Grows(db, next) && AttemptOk(db, a)
    ensures AttemptOk(next, a)
  {
    forall b | b in a.batches
      ensures BatchOk(next, a.key, b)
    {
      BatchStaysOk(db, next, a.key, b);
    }
    forall i | i in a.marking
      ensures InScope(next, a.key, i) && FileGone(next, i)
    {
      assert InScope(db, a.key, i);
    }
    if a.status in {Working, Finished} {
      forall i | InScope(next, a.key, i) && next.rows.items[i].createdAt < a.readAt
        ensures Accounted(next, a, i)
      {
        assert InScope(db, a.key, i) && Accounted(db, a, i);
      }
    }
  }

  lemma {:induction false} SentStaysOk(db: Db, next: Db)
    requires Grows(db, next) && SentOk(db)
    requires forall h :: h in next.log && h.DeleteSent? ==> h in db.log
    ensures SentOk(next)
  {
    forall h | h in next.log && h.DeleteSent?
      ensures BatchOk(next, h.key, h.batch)
    {
      BatchStaysOk(db, next, h.key, h.batch);
    }
  }

  /** What a step leaves to show once rows only grow: everything but the attempt it changed. */
  lemma {:induction false} OtherAttemptsStayOk(db: Db, next: Db, k: nat)
    requires Grows(db, next) && k < |db.attempts| && |next.attempts| == |db.attempts|
    requires forall m :: 0 <= m < |db.attempts| ==> AttemptOk(db, db.attempts[m])
    requires forall m :: 0 <= m < |db.attempts| && m != k ==> next.attempts[m] == db.attempts[m]
    requires AttemptOk(next, next.attempts[k])
    ensures forall m :: 0 <= m < |next.attempts| ==> AttemptOk(next, next.attempts[m])
  {
    forall m | 0 <= m < |next.attempts| && m != k
      ensures AttemptOk(next, next.attempts[m])
    {
      AttemptStaysOk(db, next, db.attempts[m]);
    }
  }

  lemma {:induction false} UnreportedAfterUpdate(attempts: seq<Attempt>, k: nat, a: Attempt, key: PurgeKey)
    requires k < |attempts| && a.key == attempts[k].key
    ensures Unreported(attempts[k := a], key) - Share(a, key) == Unreported(attempts, key) - Share(attempts[k], key)
    decreases |attempts|
  {
    var last := |attempts| - 1;
    if k == last {
      assert attempts[k := a][..last] == attempts[..last];
    } else {
      assert attempts[k := a][..last] == attempts[..last][k := a];
      UnreportedAfterUpdate(attempts[..last], k, a, key);
    }
  }

  function Share(a: Attempt, key: PurgeKey): nat {
    if a.key == key && a.status !in {Finished, Aborted} then a.purgedCount else 0
  }

  lemma {:induction false} UnreportedAfterAppend(attempts: seq<Attempt>, a: Attempt, key: PurgeKey)
    ensures Unreported(attempts + [a], key) == Unreported(attempts, key) + Share(a, key)
  {
    assert (attempts + [a])[..|attempts|] == attempts;
  }

  // ── Each step keeps it ──

  lemma {:induction false} InitHoldsPurgeInv(db: Db)
    requires Init(db)
    ensures PurgeInv(db)
  {
  }

  lemma {:induction false} LeaseKeeps(db: Db, key: PurgeKey, now: Time)
    requires PurgeInv(db)
    ensures PurgeInv(DoLease(db, key, now))
  {
    var next := DoLease(db, key, now);
    if next != db {
      assert Grows(db, next);
      SentStaysOk(db, next);
      ItemsStayOk(db, next);
      CompletedStays(db, next);
      LeaseKeepsAttempts(db, next);
    }
  }

  lemma {:induction false} LeaseKeepsAttempts(db: Db, next: Db)
    requires PurgeInv(db) && Grows(db, next) && next.rows.items == db.rows.items
    requires next.attempts != [] && next.attempts[..|next.attempts| - 1] == db.attempts
    requires var a := next.attempts[|next.attempts| - 1];
             a == Attempt(a.key, a.now, Leased, 0, {}, [], {}, 0) && a.key in next.rows.purges
    requires next.rows.purges.Keys == db.rows.purges.Keys
    requires forall x :: x in db.rows.purges ==> next.rows.purges[x].purgedCount == db.rows.purges[x].purgedCount
    ensures forall m :: 0 <= m < |next.attempts| ==> AttemptOk(next, next.attempts[m])
    ensures CountsOk(next)
  {
    var started := next.attempts[|next.attempts| - 1];
    assert next.attempts == db.attempts + [started];
    forall m | 0 <= m < |next.attempts|
      ensures AttemptOk(next, next.attempts[m])
    {
      if m < |db.attempts| {
        AttemptStaysOk(db, next, db.attempts[m]);
      }
    }
    forall x | x in next.rows.purges
      ensures next.rows.purges[x].purgedCount + Unreported(next.attempts, x) == |MarkedBy(next.rows.items, x)|
    {
      UnreportedAfterAppend(db.attempts, started, x);
    }
  }

  lemma {:induction false} CompletedStays(db: Db, next: Db)
    requires CompletedOk(db) && |db.attempts| <= |next.attempts|
    requires forall key :: key in next.rows.purges && next.rows.purges[key].completedAt.Some? ==>
               key in db.rows.purges && db.rows.purges[key].completedAt.Some?
    requires forall k :: 0 <= k < |db.attempts| && db.attempts[k].status == Finished ==>
               next.attempts[k] == db.attempts[k]
    ensures CompletedOk(next)
  {
    forall key | key in next.rows.purges && next.rows.purges[key].completedAt.Some?
      ensures exists k: nat :: FinishedClean(next, key, k)
    {
      var k: nat :| FinishedClean(db, key, k);
      assert FinishedClean(next, key, k);
    }
  }

  lemma {:induction false} ItemsStayOk(db: Db, next: Db)
    requires ItemsOk(db) && Grows(db, next) && next.rows.items == db.rows.items
    requires forall key :: key in next.rows.purges && key !in db.rows.purges ==>
               next.rows.purges[key].startedAt <= next.clock
    ensures ItemsOk(next)
  {
    forall i | i in next.rows.items && next.rows.items[i].purgedBy.Some?
      ensures InScope(next, next.rows.items[i].purgedBy.value, i) && FileGone(next, i)
    {
      assert InScope(db, db.rows.items[i].purgedBy.value, i);
    }
  }

  /** A step that changes attempt k and purge rows only, item rows not at all. */
  lemma {:induction false} AttemptChangeKeeps(db: Db, next: Db, k: nat)
    requires PurgeInv(db) && Grows(db, next) && next.rows.items == db.rows.items
    requires next.rows.purges.Keys == db.rows.purges.Keys
    requires k < |db.attempts| == |next.attempts|
    requires next.attempts == db.attempts[k := next.attempts[k]] && next.attempts[k].key == db.attempts[k].key
    requires AttemptOk(next, next.attempts[k])
    requires SentOk(next) && CompletedOk(next)
    requires forall key :: key in db.rows.purges ==>
               next.rows.purges[key].purgedCount + Share(next.attempts[k], key)
               == db.rows.purges[key].purgedCount + Share(db.attempts[k], key)
    ensures PurgeInv(next)
  {
    ItemsStayOk(db, next);
    OtherAttemptsStayOk(db, next, k);
    CountsStay(db, next, k);
  }

  /** Every unpurged item in the purge is either hidden at once or in exactly one kind of batch. */
  lemma {:induction false} ReadCoversRows(db: Db, key: PurgeKey, rows: seq<ItemId>)
    requires key in db.rows.purges && IsItemsToPurge(db.rows, key, rows)
    ensures forall i :: i in rows ==>
              i in Outside(rows, db.rows.items) || i in Flatten(DeleteBatches(rows, db.rows.items))
    ensures forall b :: b in DeleteBatches(rows, db.rows.items) ==> BatchOk(db, key, b)
  {
    var images, videos := OfType(rows, db.rows.items, IMAGE), OfType(rows, db.rows.items, VIDEO);
    var imageChunks := Chunk(images, CLOUDINARY_DELETE_BATCH_LIMIT);
    var videoChunks := Chunk(videos, CLOUDINARY_DELETE_BATCH_LIMIT);
    FlattenConcat(imageChunks, videoChunks);
    ChunkSizes(images, CLOUDINARY_DELETE_BATCH_LIMIT);
    ChunkSizes(videos, CLOUDINARY_DELETE_BATCH_LIMIT);
    forall b | b in DeleteBatches(rows, db.rows.items)
      ensures BatchOk(db, key, b)
    {
      forall i | i in b
        ensures (b in imageChunks && i in images) || (b !in imageChunks && i in videos)
      {
        if b in imageChunks {
          ChunksInFlatten(imageChunks, b, i);
        } else {
          ChunksInFlatten(videoChunks, b, i);
        }
      }
    }
  }

  lemma {:induction false} ReadKeeps(db: Db, k: nat, rows: seq<ItemId>)
    requires PurgeInv(db) && Enabled(db, ReadItems(k, rows))
    ensures PurgeInv(Next(db, ReadItems(k, rows)))
  {
    var next := Next(db, ReadItems(k, rows));
    var a := db.attempts[k];
    var b := AfterRead(a, db.rows.items, rows, db.clock);
    ReadAttemptOk(db, a, rows);
    assert Grows(db, next);
    AttemptStaysOk(db, next, b);
    SentStaysOk(db, next);
    CompletedStays(db, next);
    AttemptChangeKeeps(db, next, k);
  }

  lemma {:induction false} ReadAttemptOk(db: Db, a: Attempt, rows: seq<ItemId>)
    requires ItemsOk(db) && AttemptOk(db, a) && a.status == Leased && IsItemsToPurge(db.rows, a.key, rows)
    ensures AttemptOk(db, AfterRead(a, db.rows.items, rows, db.clock))
  {
    ReadCoversRows(db, a.key, rows);
  }

  lemma {:induction false} CountsStay(db: Db, next: Db, k: nat)
    requires CountsOk(db) && k < |db.attempts| == |next.attempts| && next.rows.items == db.rows.items
    requires next.attempts == db.attempts[k := next.attempts[k]] && next.attempts[k].key == db.attempts[k].key
    requires next.rows.purges.Keys == db.rows.purges.Keys
    requires forall key :: key in db.rows.purges ==>
               next.rows.purges[key].purgedCount + Share(next.attempts[k], key)
               == db.rows.purges[key].purgedCount + Share(db.attempts[k], key)
    ensures CountsOk(next)
  {
    forall key | key in next.rows.purges
      ensures next.rows.purges[key].purgedCount + Unreported(next.attempts, key) == |MarkedBy(next.rows.items, key)|
    {
      UnreportedAfterUpdate(db.attempts, k, next.attempts[k], key);
    }
  }

  lemma {:induction false} DeleteKeeps(db: Db, k: nat, reply: Reply)
    requires PurgeInv(db) && Enabled(db, DeleteBatch(k, reply))
    ensures PurgeInv(DoDelete(db, k, reply))
  {
    var next := DoDelete(db, k, reply);
    var a := db.attempts[k];
    var batch := a.batches[0];
    assert BatchOk(db, a.key, batch);
    assert Grows(db, next);
    DeletedAttemptOk(db, next, a, reply);
    forall h | h in next.log && h.DeleteSent?
      ensures BatchOk(next, h.key, h.batch)
    {
      if h in db.log {
        BatchStaysOk(db, next, h.key, h.batch);
      } else {
        BatchStaysOk(db, next, a.key, batch);
      }
    }
    CompletedStays(db, next);
    AttemptChangeKeeps(db, next, k);
  }

  lemma {:induction false} DeletedAttemptOk(db: Db, next: Db, a: Attempt, reply: Reply)
    requires Grows(db, next) && next.rows == db.rows && AttemptOk(db, a) && a.status == Working
    requires a.marking == {} && a.batches != []
    requires forall i :: i in Done(a.batches[0], db.rows.items, reply) && i in db.rows.items ==>
               db.rows.items[i].publicId in next.gone
    ensures AttemptOk(next, AfterDelete(a, db.rows.items, reply))
  {
    var b := AfterDelete(a, db.rows.items, reply);
    AttemptStaysOk(db, next, a);
    assert BatchOk(next, a.key, a.batches[0]);
    forall i | InScope(next, b.key, i) && next.rows.items[i].createdAt < b.readAt
      ensures Accounted(next, b, i)
    {
      assert Accounted(next, a, i);
    }
  }

  lemma {:induction false} MarkKeeps(db: Db, k: nat)
    requires PurgeInv(db) && Enabled(db, MarkDone(k))
    ensures PurgeInv(DoMark(db, k))
  {
    var next := DoMark(db, k);
    assert Grows(db, next);
    MarkKeepsAttempts(db, k);
    SentStaysOk(db, next);
    CompletedStays(db, next);
    MarkKeepsItems(db, k);
    MarkKeepsCounts(db, k);
  }

  lemma {:induction false} MarkKeepsAttempts(db: Db, k: nat)
    requires PurgeInv(db) && k < |db.attempts| && Grows(db, DoMark(db, k)) && db.attempts[k].status == Working
    ensures var next := DoMark(db, k); forall m :: 0 <= m < |next.attempts| ==> AttemptOk(next, next.attempts[m])
  {
    var next := DoMark(db, k);
    var a := db.attempts[k];
    AttemptStaysOk(db, next, a);
    forall i | InScope(next, a.key, i) && next.rows.items[i].createdAt < a.readAt
      ensures Accounted(next, next.attempts[k], i)
    {
      assert Accounted(next, a, i);
    }
    OtherAttemptsStayOk(db, next, k);
  }

  lemma {:induction false} MarkKeepsCounts(db: Db, k: nat)
    requires ItemsOk(db) && CountsOk(db) && k < |db.attempts| && db.attempts[k].status == Working
    ensures CountsOk(DoMark(db, k))
  {
    var next := DoMark(db, k);
    var a := db.attempts[k];
    forall key | key in next.rows.purges
      ensures next.rows.purges[key].purgedCount + Unreported(next.attempts, key) == |MarkedBy(next.rows.items, key)|
    {
      UnreportedAfterUpdate(db.attempts, k, next.attempts[k], key);
      MarkedAfterMark(db.rows, a.marking, a.now, a.key, key);
    }
  }

  lemma {:induction false} MarkKeepsItems(db: Db, k: nat)
    requires PurgeInv(db) && k < |db.attempts|
    ensures ItemsOk(DoMark(db, k))
  {
    var next := DoMark(db, k);
    var a := db.attempts[k];
    assert AttemptOk(db, a);
    forall i | i in next.rows.items && next.rows.items[i].purgedBy.Some?
      ensures InScope(next, next.rows.items[i].purgedBy.value, i) && FileGone(next, i) && next.rows.items[i].isArchived
    {
      if i in Unpurged(db.rows, a.marking) {
        assert InScope(db, a.key, i) && FileGone(db, i);
      } else {
        assert InScope(db, db.rows.items[i].purgedBy.value, i);
      }
    }
  }

  /** The conditional update counts exactly the rows it makes this purge's. */
  lemma {:induction false} MarkedAfterMark(t: Tables, ids: set<ItemId>, now: Time, marker: PurgeKey, key: PurgeKey)
    requires forall i :: i in t.items ==> (t.items[i].purgedAt.None? <==> t.items[i].purgedBy.None?)
    ensures var (rows, count) := MarkItemsPurged(t, ids, now, marker);
            |MarkedBy(rows.items, key)| == |MarkedBy(t.items, key)| + (if key == marker then count else 0)
  {
    var rows := MarkItemsPurged(t, ids, now, marker).0;
    var hit := Unpurged(t, ids);
    if key == marker {
      assert MarkedBy(rows.items, key) == MarkedBy(t.items, key) + hit;
      assert MarkedBy(t.items, key) !! hit;
    } else {
      assert MarkedBy(rows.items, key) == MarkedBy(t.items, key);
    }
  }

  lemma {:induction false} PurgeWriteGrows(db: Db, next: Db, key: PurgeKey)
    requires key in db.rows.purges && key in next.rows.purges
    requires next.rows.purges[key].startedAt == db.rows.purges[key].startedAt
    requires next.rows == db.rows.(purges := db.rows.purges[key := next.rows.purges[key]])
    requires next.clock == db.clock && next.gone == db.gone
    ensures Grows(db, next)
  {
  }

  function Reported(db: Db, k: nat, status: AttemptStatus, failedCount: nat, completedAt: Option<Time>): Db
    requires k < |db.attempts| && db.attempts[k].key in db.rows.purges
  {
    var a := db.attempts[k];
    db.(rows := FinishAttempt(db.rows, a.key, a.purgedCount, failedCount, completedAt),
        attempts := db.attempts[k := a.(status := status)])
  }

  lemma {:induction false} ReportedAttemptOk(db: Db, k: nat, status: AttemptStatus, failedCount: nat,
      completedAt: Option<Time>)
    requires k < |db.attempts| && AttemptOk(db, db.attempts[k])
    requires status == Aborted || (status == Finished && AllSent(db.attempts[k]))
    ensures var next := Reported(db, k, status, failedCount, completedAt);
            Grows(db, next) && AttemptOk(next, next.attempts[k])
  {
    var next := Reported(db, k, status, failedCount, completedAt);
    PurgeWriteGrows(db, next, db.attempts[k].key);
    AttemptStaysOk(db, next, db.attempts[k]);
  }

  /** An attempt that reports moves its count to the purge's row. */
  lemma {:induction false} ReportKeeps(db: Db, k: nat, status: AttemptStatus, failedCount: nat,
      completedAt: Option<Time>)
    requires PurgeInv(db) && k < |db.attempts| && db.attempts[k].status in {Leased, Working}
    requires status == Aborted || (status == Finished && AllSent(db.attempts[k]))
    requires CompletedOk(Reported(db, k, status, failedCount, completedAt))
    ensures PurgeInv(Reported(db, k, status, failedCount, completedAt))
  {
    var next := Reported(db, k, status, failedCount, completedAt);
    ReportedAttemptOk(db, k, status, failedCount, completedAt);
    SentStaysOk(db, next);
    AttemptChangeKeeps(db, next, k);
  }

  lemma {:induction false} FinishKeeps(db: Db, k: nat)
    requires PurgeInv(db) && Enabled(db, FinishRun(k))
    ensures PurgeInv(DoFinish(db, k))
  {
    FinishKeepsCompleted(db, k);
    ReportKeeps(db, k, Finished, |db.attempts[k].failed|, CompletedAt(db.attempts[k]));
  }

  lemma {:induction false} FinishKeepsCompleted(db: Db, k: nat)
    requires CompletedOk(db) && k < |db.attempts| && AllSent(db.attempts[k]) && db.attempts[k].key in db.rows.purges
    ensures CompletedOk(DoFinish(db, k))
  {
    var next := DoFinish(db, k);
    forall key | key in next.rows.purges && next.rows.purges[key].completedAt.Some?
      ensures exists m: nat :: FinishedClean(next, key, m)
    {
      if key == db.attempts[k].key {
        assert FinishedClean(next, key, k);
      } else {
        var m: nat :| FinishedClean(db, key, m);
        assert FinishedClean(next, key, m);
      }
    }
  }

  lemma {:induction false} AbortKeeps(db: Db, k: nat)
    requires PurgeInv(db) && Enabled(db, AbortRun(k))
    ensures PurgeInv(DoAbort(db, k))
  {
    CompletedStays(db, DoAbort(db, k));
    ReportKeeps(db, k, Aborted, db.rows.purges[db.attempts[k].key].failedCount, None);
  }

  lemma {:induction false} CrashKeeps(db: Db, k: nat)
    requires PurgeInv(db) && Enabled(db, CrashRun(k))
    ensures PurgeInv(DoCrash(db, k))
  {
    var next := DoCrash(db, k);
    assert Grows(db, next);
    AttemptStaysOk(db, next, db.attempts[k]);
    SentStaysOk(db, next);
    CompletedStays(db, next);
    AttemptChangeKeeps(db, next, k);
  }

  lemma {:induction false} ClaimKeeps(db: Db, e: EventId, reason: Reason, user: Option<string>, dueBy: Option<Time>,
      now: Time)
    requires PurgeInv(db) && now <= db.clock
    ensures PurgeInv(DoClaim(db, e, reason, user, dueBy, now))
  {
    if ClaimPurge(db.rows, e, reason, user, dueBy, now).1 == CLAIMED {
      var key := PurgeKey(e, db.rows.events[e].archivedAt.value);
      NewPurgeKeeps(db, DoClaim(db, e, reason, user, dueBy, now), key);
    }
  }

  lemma {:induction false} NewPurgeKeeps(db: Db, next: Db, key: PurgeKey)
    requires PurgeInv(db) && key !in db.rows.purges
    requires key in next.rows.purges && next.rows == db.rows.(purges := db.rows.purges[key := next.rows.purges[key]])
    requires var p := next.rows.purges[key]; p.startedAt <= db.clock && p.completedAt.None? && p.purgedCount == 0
    requires next.clock == db.clock && next.gone == db.gone && next.attempts == db.attempts
    requires forall h :: h in next.log && h.DeleteSent? ==> h in db.log
    ensures PurgeInv(next)
  {
    assert Grows(db, next);
    RowsOnlyGrow(db, next);
    ItemsStayOk(db, next);
    NothingMarkedYet(db, key);
    CompletedStays(db, next);
  }

  /** A purge that does not exist yet has marked nothing and has no attempts. */
  lemma {:induction false} NothingMarkedYet(db: Db, key: PurgeKey)
    requires PurgeInv(db) && key !in db.rows.purges
    ensures MarkedBy(db.rows.items, key) == {} && Unreported(db.attempts, key) == 0
  {
    forall i | i in db.rows.items && db.rows.items[i].purgedBy.Some?
      ensures db.rows.items[i].purgedBy.value != key
    {
      assert InScope(db, db.rows.items[i].purgedBy.value, i);
    }
    NoAttempts(db.attempts, key);
  }

  lemma {:induction false} NoAttempts(attempts: seq<Attempt>, key: PurgeKey)
    requires forall k :: 0 <= k < |attempts| ==> attempts[k].key != key
    ensures Unreported(attempts, key) == 0
    decreases |attempts|
  {
    if attempts != [] {
      NoAttempts(attempts[..|attempts| - 1], key);
    }
  }

  lemma {:induction false} RowsOnlyGrow(db: Db, next: Db)
    requires PurgeInv(db) && Grows(db, next) && next.attempts == db.attempts
    requires forall h :: h in next.log && h.DeleteSent? ==> h in db.log
    ensures SentOk(next)
    ensures forall m :: 0 <= m < |next.attempts| ==> AttemptOk(next, next.attempts[m])
  {
    SentStaysOk(db, next);
    forall m | 0 <= m < |next.attempts|
      ensures AttemptOk(next, next.attempts[m])
    {
      AttemptStaysOk(db, next, db.attempts[m]);
    }
  }

  /** An upload, or an edit of an item not purged. */
  ghost predicate PlainItemWrite(db: Db, i: ItemId, item: Item) {
    && item.purgedAt.None? && item.purgedBy.None?
    && if i in db.rows.items
       then db.rows.items[i].purgedAt.None?
            && item == db.rows.items[i].(approved := item.approved, isArchived := item.isArchived)
       else item.createdAt == db.clock
  }

  lemma {:induction false} ItemWriteKeepsItems(db: Db, i: ItemId, item: Item)
    requires ItemsOk(db) && PlainItemWrite(db, i, item)
    ensures Grows(db, WithItem(db, i, item)) && ItemsOk(WithItem(db, i, item))
  {
    var next := WithItem(db, i, item);
    forall j | j in next.rows.items && next.rows.items[j].purgedBy.Some?
      ensures InScope(next, next.rows.items[j].purgedBy.value, j) && FileGone(next, j) && next.rows.items[j].isArchived
    {
      assert InScope(db, db.rows.items[j].purgedBy.value, j);
    }
  }

  lemma {:induction false} ItemWriteKeepsCounts(db: Db, i: ItemId, item: Item)
    requires ItemsOk(db) && CountsOk(db) && PlainItemWrite(db, i, item)
    ensures CountsOk(WithItem(db, i, item))
  {
    var next := WithItem(db, i, item);
    forall key | key in next.rows.purges
      ensures MarkedBy(next.rows.items, key) == MarkedBy(db.rows.items, key)
    {
    }
  }

  lemma {:induction false} ItemWriteKeeps(db: Db, i: ItemId, item: Item)
    requires PurgeInv(db) && PlainItemWrite(db, i, item)
    ensures PurgeInv(WithItem(db, i, item))
  {
    var next := WithItem(db, i, item);
    ItemWriteKeepsItems(db, i, item);
    ItemWriteKeepsCounts(db, i, item);
    RowsOnlyGrow(db, next);
    CompletedStays(db, next);
  }

  lemma {:induction false} PlainStepKeeps(db: Db, next: Db)
    requires PurgeInv(db) && Grows(db, next) && next.attempts == db.attempts
    requires next.rows.purges == db.rows.purges && next.rows.items == db.rows.items
    requires forall h :: h in next.log && h.DeleteSent? ==> h in db.log
    ensures PurgeInv(next)
  {
    RowsOnlyGrow(db, next);
    CompletedStays(db, next);
    forall i | i in next.rows.items && next.rows.items[i].purgedBy.Some?
      ensures InScope(next, next.rows.items[i].purgedBy.value, i) && FileGone(next, i)
    {
      assert InScope(db, db.rows.items[i].purgedBy.value, i);
    }
  }

  lemma {:induction false} AttemptStepKeeps(db: Db, step: Step)
    requires PurgeInv(db) && Enabled(db, step)
    requires step.ReadItems? || step.DeleteBatch? || step.MarkDone? || step.FinishRun? || step.AbortRun? ||
               step.CrashRun?
    ensures PurgeInv(Next(db, step))
  {
    match step {
      case ReadItems(k, rows) => ReadKeeps(db, k, rows);
      case DeleteBatch(k, reply) => DeleteKeeps(db, k, reply);
      case MarkDone(k) => MarkKeeps(db, k);
      case FinishRun(k) => FinishKeeps(db, k);
      case AbortRun(k) => AbortKeeps(db, k);
      case CrashRun(k) => CrashKeeps(db, k);
    }
  }

  lemma {:induction false} StepKeepsPurgeInv(db: Db, step: Step)
    requires PurgeInv(db) && ReadsInv(db)
    ensures PurgeInv(Next(db, step))
  {
    if Enabled(db, step) {
      if step.ReadItems? || step.DeleteBatch? || step.MarkDone? || step.FinishRun? || step.AbortRun? || step.CrashRun? {
        AttemptStepKeeps(db, step);
      } else if step.LeasePurge? || step.ClaimDue? || step.ClaimNow? || step.AddItem? || step.EditItem? {
        RowStepKeeps(db, step);
      } else {
        assert Grows(db, Next(db, step));
        PlainStepKeeps(db, Next(db, step));
      }
    }
  }

  lemma {:induction false} RowStepKeeps(db: Db, step: Step)
    requires PurgeInv(db) && ReadsInv(db) && Enabled(db, step)
    requires step.LeasePurge? || step.ClaimDue? || step.ClaimNow? || step.AddItem? || step.EditItem?
    ensures PurgeInv(Next(db, step))
  {
    match step {
      case LeasePurge(key, now) => LeaseKeeps(db, key, now);
      case ClaimDue(due) => ClaimKeeps(db, due.eventId, RETENTION, None, Some(due.now - RETENTION_MS), due.now);
      case ClaimNow(e, userId, now) => ClaimKeeps(db, e, SUPER_ADMIN, Some(userId), None, now);
      case AddItem(i, e, publicId, inFolder, mediaType) =>
        ItemWriteKeeps(db, i, Item(e, publicId, inFolder, mediaType, false, false, db.clock, None, None));
      case EditItem(i, approved, isArchived) =>
        ItemWriteKeeps(db, i, db.rows.items[i].(approved := approved, isArchived := isArchived));
    }
  }

  lemma {:induction false} RunKeepsPurgeInv(db: Db, steps: seq<Step>)
    requires PurgeInv(db) && ClaimInv(db)
    ensures PurgeInv(Exec(db, steps))
    decreases |steps|
  {
    if steps != [] {
      StepKeepsPurgeInv(db, steps[0]);
      StepKeepsClaimInv(db, steps[0]);
      RunKeepsPurgeInv(Next(db, steps[0]), steps[1..]);
    }
  }

  lemma {:induction false} EveryRunKeepsPurgeInv(db: Db, steps: seq<Step>)
    requires Init(db)
    ensures PurgeInv(Exec(db, steps))
  {
    InitHoldsPurgeInv(db);
    InitHoldsClaimInv(db);
    RunKeepsPurgeInv(db, steps);
  }

  // ── What every run guarantees ──

  /** A completed purge has purged every item that existed when it began. The one
      escape: an item created at the very instant it began, when every attempt that
      finished clean had read its items at that same instant. */
  lemma {:induction false} CompletedMeansPurged(db: Db, steps: seq<Step>, key: PurgeKey, i: ItemId)
    requires Init(db)
    requires var end := Exec(db, steps);
             && key in end.rows.purges && end.rows.purges[key].completedAt.Some?
             && i in end.rows.items && end.rows.items[i].eventId == key.eventId
             && end.rows.items[i].createdAt <= end.rows.purges[key].startedAt
    ensures var end := Exec(db, steps);
            var startedAt := end.rows.purges[key].startedAt;
            || end.rows.items[i].purgedAt.Some?
            || (end.rows.items[i].createdAt == startedAt
                && forall k: nat :: FinishedClean(end, key, k) ==> end.attempts[k].readAt == startedAt)
  {
    EveryRunKeepsPurgeInv(db, steps);
    var end := Exec(db, steps);
    forall k: nat | FinishedClean(end, key, k) && end.rows.items[i].createdAt < end.attempts[k].readAt
      ensures end.rows.items[i].purgedAt.Some?
    {
      assert InScope(end, key, i);
      assert Accounted(end, end.attempts[k], i);
    }
    var k: nat :| FinishedClean(end, key, k);
    assert AttemptOk(end, end.attempts[k]);
  }

  /** Nothing created after a purge began, or of another event, is ever marked by it,
      and a file in the folder is marked only once Cloudinary says it is gone. */
  lemma {:induction false} MarkedItemsWereInScope(db: Db, steps: seq<Step>, key: PurgeKey, i: ItemId)
    requires Init(db)
    requires var end := Exec(db, steps); i in end.rows.items && end.rows.items[i].purgedBy == Some(key)
    ensures var end := Exec(db, steps);
            var item := end.rows.items[i];
            && key in end.rows.purges && item.eventId == key.eventId
            && item.createdAt <= end.rows.purges[key].startedAt
            && (item.inFolder ==> item.publicId in end.gone)
            && item.purgedAt.Some? && item.isArchived
  {
    EveryRunKeepsPurgeInv(db, steps);
    assert InScope(Exec(db, steps), key, i);
  }

  /** Every deletion ever sent: 1 to 100 items of one type, all in the event's own
      folder and all of that purge. */
  lemma {:induction false} SentBatchesAreInFolder(db: Db, steps: seq<Step>, h: Happening)
    requires Init(db)
    requires h in Exec(db, steps).log && h.DeleteSent?
    ensures BatchOk(Exec(db, steps), h.key, h.batch) && 0 < |h.batch| <= 100
  {
    EveryRunKeepsPurgeInv(db, steps);
  }

  /** Once every attempt on a purge has reported (reached finishAttempt), its count is
      exactly the rows it marked, however many attempts overlapped. */
  lemma {:induction false} AllReported(attempts: seq<Attempt>, key: PurgeKey)
    requires forall k :: 0 <= k < |attempts| && attempts[k].key == key ==> attempts[k].status in {Finished, Aborted}
    ensures Unreported(attempts, key) == 0
    decreases |attempts|
  {
    if attempts != [] {
      assert attempts[|attempts| - 1].key == key ==> attempts[|attempts| - 1].status in {Finished, Aborted};
      AllReported(attempts[..|attempts| - 1], key);
    }
  }

  lemma {:induction false} PurgedCountIsExact(db: Db, steps: seq<Step>, key: PurgeKey)
    requires Init(db) && key in Exec(db, steps).rows.purges
    ensures var end := Exec(db, steps);
            && end.rows.purges[key].purgedCount + Unreported(end.attempts, key) == |MarkedBy(end.rows.items, key)|
            && ((forall k :: 0 <= k < |end.attempts| && end.attempts[k].key == key ==>
                     end.attempts[k].status in {Finished, Aborted}) ==>
                  end.rows.purges[key].purgedCount == |MarkedBy(end.rows.items, key)|)
  {
    EveryRunKeepsPurgeInv(db, steps);
    var end := Exec(db, steps);
    if forall k :: 0 <= k < |end.attempts| && end.attempts[k].key == key ==>
        end.attempts[k].status in {Finished, Aborted} {
      AllReported(end.attempts, key);
    }
  }

  // ── Two runs that show the limits ──

  /** Its purge claimed by a super admin the instant it was archived. */
  lemma {:induction false} ClaimedAtOnce() returns (db: Db)
    ensures Reaches(OneEvent(), db)
    ensures db.clock == 0 && db.attempts == [] && db.rows.items == map[]
    ensures db.rows.events == map["e" := EventRow(true, Some(0), true)]
    ensures db.rows.purges == map[PurgeKey("e", 0) := Purge(SUPER_ADMIN, Some("admin"), 0, None, None, 0, 0, 0)]
  {
    assert Exec(OneEvent(), []) == OneEvent();
    db := Next(OneEvent(), ArchiveEvent("e"));
    ReachStep(OneEvent(), OneEvent(), ArchiveEvent("e"));
    ReachStep(OneEvent(), db, ClaimNow("e", "admin", 0));
    db := Next(db, ClaimNow("e", "admin", 0));
  }

  /** Leasing an unleased purge of an empty hub and reading its items: nothing to send. */
  lemma {:induction false} EmptyRead(db: Db, key: PurgeKey, k: nat)
    requires k < |db.attempts| && db.attempts[k] == Attempt(key, db.attempts[k].now, Leased, 0, {}, [], {}, 0)
    requires key in db.rows.purges && db.rows.items == map[]
    ensures Next(db, ReadItems(k, [])) ==
            db.(attempts := db.attempts[k := Attempt(key, db.attempts[k].now, Working, db.clock, {}, [], {}, 0)])
  {
    assert IsItemsToPurge(db.rows, key, []);
    assert Outside([], db.rows.items) == {};
    assert OfType([], db.rows.items, IMAGE) == [] && OfType([], db.rows.items, VIDEO) == [];
    assert DeleteBatches([], db.rows.items) == [];
  }

  lemma {:induction false} LeaseTaken(db: Db, key: PurgeKey, now: Time)
    requires now <= db.clock && key in db.rows.purges && LeaseFree(db.rows.purges[key], now)
    ensures var next := Next(db, LeasePurge(key, now));
            && next.attempts == db.attempts + [Attempt(key, now, Leased, 0, {}, [], {}, 0)]
            && next.rows.items == db.rows.items && next.rows.events == db.rows.events && next.clock == db.clock
            && next.rows.purges == db.rows.purges[key := next.rows.purges[key]]
            && next.rows.purges[key].leaseUntil == Some(now + MEDIA_PURGE_LEASE_MS)
            && next.rows.purges[key].completedAt.None?
            && next.rows.purges[key].startedAt == db.rows.purges[key].startedAt
  {
  }

  lemma {:induction false} FinishedRun(db: Db, key: PurgeKey, k: nat)
    requires k < |db.attempts| && AllSent(db.attempts[k]) && db.attempts[k].failed == {} && db.attempts[k].key == key
    requires key in db.rows.purges
    ensures var next := Next(db, FinishRun(k));
            && key in next.rows.purges && next.rows.purges[key].completedAt == Some(db.attempts[k].now)
            && next.rows.purges[key].startedAt == db.rows.purges[key].startedAt
            && next.rows.items == db.rows.items
            && next.attempts == db.attempts[k := db.attempts[k].(status := Finished)]
  {
  }

  /** Leased at 0, the clock moved on to `then`, and read. */
  lemma {:induction false} LeasedAndRead(later: Time) returns (db: Db)
    requires later >= 0
    ensures Reaches(OneEvent(), db)
    ensures db.clock == later && db.rows.items == map[]
    ensures db.rows.events == map["e" := EventRow(true, Some(0), true)]
    ensures var key := PurgeKey("e", 0);
            && key in db.rows.purges && db.rows.purges[key].startedAt == 0 && db.rows.purges[key].completedAt.None?
            && db.rows.purges[key].leaseUntil == Some(MEDIA_PURGE_LEASE_MS)
            && db.attempts == [Attempt(key, 0, Working, later, {}, [], {}, 0)]
  {
    var key := PurgeKey("e", 0);
    var d2 := ClaimedAtOnce();
    LeaseTaken(d2, key, 0);
    var d3 := Next(d2, LeasePurge(key, 0));
    ReachStep(OneEvent(), d2, LeasePurge(key, 0));
    var d4 := d3.(clock := later);
    ReachStep(OneEvent(), d3, Tick(later));
    EmptyRead(d4, key, 0);
    db := Next(d4, ReadItems(0, []));
    ReachStep(OneEvent(), d4, ReadItems(0, []));
  }

  /** A purge claimed, leased and read, its event restored and a photo uploaded, all
      in one millisecond: it completes with an item created at its start unpurged. */
  lemma {:induction false} SameInstantUploadEscapes()
    ensures exists end ::
              && Reaches(OneEvent(), end)
              && PurgeKey("e", 0) in end.rows.purges && end.rows.purges[PurgeKey("e", 0)].completedAt.Some?
              && "photo" in end.rows.items && end.rows.items["photo"].eventId == "e"
              && end.rows.items["photo"].createdAt <= end.rows.purges[PurgeKey("e", 0)].startedAt
              && end.rows.items["photo"].purgedAt.None?
  {
    var key := PurgeKey("e", 0);
    var d4 := LeasedAndRead(0);
    var d5 := DoRestore(d4, "e");
    ReachStep(OneEvent(), d4, RestoreEvent("e"));
    var d6 := WithItem(d5, "photo", Item("e", "p", true, IMAGE, false, false, 0, None, None));
    ReachStep(OneEvent(), d5, AddItem("photo", "e", "p", true, IMAGE));
    FinishedRun(d6, key, 0);
    ReachStep(OneEvent(), d6, FinishRun(0));
  }

  /** Two attempts overlap once a lease runs out. The first completes the purge; the
      second then fails in the database, and its finishAttempt clears completedAt. */
  lemma {:induction false} CompletionCanBeUndone()
    ensures exists middle, step: Step ::
              && Reaches(OneEvent(), middle) && PurgeKey("e", 0) in middle.rows.purges
              && middle.rows.purges[PurgeKey("e", 0)].completedAt.Some?
              && PurgeKey("e", 0) in Next(middle, step).rows.purges
              && Next(middle, step).rows.purges[PurgeKey("e", 0)].completedAt.None?
  {
    var key, late := PurgeKey("e", 0), MEDIA_PURGE_LEASE_MS + 1;
    var d4 := LeasedAndRead(late);
    LeaseTaken(d4, key, late);
    var d5 := Next(d4, LeasePurge(key, late));
    ReachStep(OneEvent(), d4, LeasePurge(key, late));
    FinishedRun(d5, key, 0);
    var d6 := Next(d5, FinishRun(0));
    ReachStep(OneEvent(), d5, FinishRun(0));
    assert Next(d6, AbortRun(1)) == DoAbort(d6, 1);
  }
}
