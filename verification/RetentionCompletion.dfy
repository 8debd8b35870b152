/** When a completed purge is final, and when it covers every item: exactly which
    attempts can undo it, and exactly which reads miss nothing. */
module RetentionCompletion {
  import opened Prelude
  import opened RetentionTables
  import opened RetentionProtocol
  import opened RetentionSafety
  import opened RetentionPurge

  // ── Completion stands ──

  predicate IsCompleted(db: Db, key: PurgeKey) {
    key in db.rows.purges && db.rows.purges[key].completedAt.Some?
  }

  /** An attempt that has not reported and may still. */
  predicate IsOpen(a: Attempt, key: PurgeKey) {
    a.key == key && a.status in {Leased, Working}
  }

  ghost predicate NoneOpen(db: Db, key: PurgeKey) {
    forall k :: 0 <= k < |db.attempts| ==> !IsOpen(db.attempts[k], key)
  }

  lemma {:induction false} StepKeepsCompleted(db: Db, step: Step, key: PurgeKey)
    requires IsCompleted(db, key) && NoneOpen(db, key)
    ensures IsCompleted(Next(db, step), key) && NoneOpen(Next(db, step), key)
    ensures Next(db, step).rows.purges[key] == db.rows.purges[key]
  {
  }

  lemma {:induction false} RunKeepsCompleted(db: Db, steps: seq<Step>, key: PurgeKey)
    requires IsCompleted(db, key) && NoneOpen(db, key)
    ensures IsCompleted(Exec(db, steps), key) && Exec(db, steps).rows.purges[key] == db.rows.purges[key]
    decreases |steps|
  {
    if steps != [] {
      StepKeepsCompleted(db, steps[0], key);
      RunKeepsCompleted(Next(db, steps[0]), steps[1..], key);
    }
  }

  /** A completed purge stays completed, whatever happens, exactly when none of its
      attempts is still open: one that is can end by clearing it. */
  lemma {:induction false} CompletionStandsExactly(db: Db, key: PurgeKey)
    requires IsCompleted(db, key)
    ensures (forall steps: seq<Step> :: IsCompleted(Exec(db, steps), key)) <==> NoneOpen(db, key)
  {
    if NoneOpen(db, key) {
      forall steps: seq<Step> ensures IsCompleted(Exec(db, steps), key) {
        RunKeepsCompleted(db, steps, key);
      }
    } else {
      var k :| 0 <= k < |db.attempts| && IsOpen(db.attempts[k], key);
      assert Next(db, AbortRun(k)) == DoAbort(db, k);
      assert Exec(db, [AbortRun(k)]) == Exec(Next(db, AbortRun(k)), []);
      assert !IsCompleted(Exec(db, [AbortRun(k)]), key);
    }
  }

  // ── What a read leads to ──

  /** Once attempt k has finished with nothing failed, every item of the purge is purged. */
  ghost predicate CleanFinishCovers(end: Db, key: PurgeKey, k: nat) {
    FinishedClean(end, key, k) ==> forall i :: InScope(end, key, i) ==> end.rows.items[i].purgedAt.Some?
  }

  /** What attempt k read, and what its purge began with, never change. */
  ghost predicate KeepsRead(db: Db, next: Db, k: nat)
    requires k < |db.attempts|
  {
    && k < |next.attempts| && next.attempts[k].key == db.attempts[k].key
    && next.attempts[k].status != Leased && next.attempts[k].readAt == db.attempts[k].readAt
    && db.attempts[k].key in db.rows.purges && db.attempts[k].key in next.rows.purges
    && next.rows.purges[db.attempts[k].key].startedAt == db.rows.purges[db.attempts[k].key].startedAt
  }

  lemma {:induction false} StepKeepsRead(db: Db, step: Step, k: nat)
    requires k < |db.attempts| && db.attempts[k].status != Leased && db.attempts[k].key in db.rows.purges
    ensures KeepsRead(db, Next(db, step), k)
  {
  }

  lemma {:induction false} RunKeepsRead(db: Db, steps: seq<Step>, k: nat)
    requires k < |db.attempts| && db.attempts[k].status != Leased && db.attempts[k].key in db.rows.purges
    ensures KeepsRead(db, Exec(db, steps), k)
    decreases |steps|
  {
    if steps != [] {
      StepKeepsRead(db, steps[0], k);
      RunKeepsRead(Next(db, steps[0]), steps[1..], k);
    }
  }

  /** A read made after the purge began misses nothing the purge is for. */
  lemma {:induction false} LaterReadCovers(db: Db, key: PurgeKey, k: nat)
    requires PurgeInv(db) && k < |db.attempts| && db.attempts[k].key == key && key in db.rows.purges
    requires db.rows.purges[key].startedAt < db.attempts[k].readAt
    ensures CleanFinishCovers(db, key, k)
  {
    assert AttemptOk(db, db.attempts[k]);
    if FinishedClean(db, key, k) {
      forall i | InScope(db, key, i) ensures db.rows.items[i].purgedAt.Some? {
        assert Accounted(db, db.attempts[k], i);
      }
    }
  }

  // ── A read at the instant the purge began ──

  /** Deleting and marking what is left, every answer confirming: attempt k finishes clean. */
  ghost predicate CanFinish(db: Db, k: nat) {
    && k < |db.attempts| && db.attempts[k].status == Working && db.attempts[k].failed == {}
    && db.attempts[k].key in db.rows.purges
    && (forall b :: b in db.attempts[k].batches ==> forall i :: i in b ==> i in db.rows.items)
  }

  predicate IsLeft(a: Attempt, i: ItemId) {
    i in a.marking || exists b :: b in a.batches && i in b
  }

  lemma {:induction false} MarkingGoesOn(db: Db, k: nat, i: ItemId)
    requires CanFinish(db, k) && i in db.rows.items && !IsLeft(db.attempts[k], i)
    ensures var next := Next(db, MarkDone(k));
            && CanFinish(next, k) && next.attempts[k].marking == {}
            && next.attempts[k].batches == db.attempts[k].batches && next.attempts[k].key == db.attempts[k].key
            && i in next.rows.items && next.rows.items[i] == db.rows.items[i]
  {
    assert Next(db, MarkDone(k)) == DoMark(db, k);
  }

  /** The answer that confirms a whole batch. */
  function AllGone(items: map<ItemId, Item>, batch: seq<ItemId>): Reply {
    Answered(set i | i in batch && i in items :: items[i].publicId)
  }

  lemma {:induction false} AllGoneConfirms(items: map<ItemId, Item>, batch: seq<ItemId>)
    requires forall i :: i in batch ==> i in items
    ensures forall i :: i in batch ==> i in Done(batch, items, AllGone(items, batch))
  {
    forall i | i in batch ensures Confirms(AllGone(items, batch), items[i].publicId) {
    }
  }

  lemma {:induction false} DeletingGoesOn(db: Db, k: nat, i: ItemId)
    requires CanFinish(db, k) && i in db.rows.items && !IsLeft(db.attempts[k], i)
    requires db.attempts[k].marking == {} && db.attempts[k].batches != []
    ensures var next := Next(db, DeleteBatch(k, AllGone(db.rows.items, db.attempts[k].batches[0])));
            && CanFinish(next, k) && !IsLeft(next.attempts[k], i)
            && next.attempts[k].batches == db.attempts[k].batches[1..] && next.attempts[k].key == db.attempts[k].key
            && next.rows.items == db.rows.items
  {
    var a, reply := db.attempts[k], AllGone(db.rows.items, db.attempts[k].batches[0]);
    var next := Next(db, DeleteBatch(k, reply));
    assert next == DoDelete(db, k, reply);
    assert a.batches[0] in a.batches && forall b :: b in a.batches[1..] ==> b in a.batches;
    AllGoneConfirms(db.rows.items, a.batches[0]);
    assert next.attempts[k] == AfterDelete(a, db.rows.items, reply);
    assert next.attempts[k].failed == {};
  }

  lemma {:induction false} ExecFirst(db: Db, step: Step, rest: seq<Step>)
    ensures Exec(db, [step] + rest) == Exec(Next(db, step), rest)
  {
    assert ([step] + rest)[1..] == rest;
  }

  lemma {:induction false} FinishesCleanly(db: Db, k: nat, i: ItemId) returns (steps: seq<Step>)
    requires CanFinish(db, k) && i in db.rows.items && !IsLeft(db.attempts[k], i)
    ensures FinishedClean(Exec(db, steps), db.attempts[k].key, k)
    ensures i in Exec(db, steps).rows.items && Exec(db, steps).rows.items[i] == db.rows.items[i]
    decreases |db.attempts[k].batches|
  {
    MarkingGoesOn(db, k, i);
    var marked := Next(db, MarkDone(k));
    if marked.attempts[k].batches == [] {
      steps := [FinishRun(k)];
      assert Next(marked, FinishRun(k)) == DoFinish(marked, k);
      ExecFirst(marked, FinishRun(k), []);
    } else {
      var reply := AllGone(marked.rows.items, marked.attempts[k].batches[0]);
      DeletingGoesOn(marked, k, i);
      var rest := FinishesCleanly(Next(marked, DeleteBatch(k, reply)), k, i);
      ExecFirst(marked, DeleteBatch(k, reply), rest);
      steps := [DeleteBatch(k, reply)] + rest;
    }
    ExecFirst(db, MarkDone(k), steps);
    steps := [MarkDone(k)] + steps;
  }

  /** Purges belong to events there are. */
  ghost predicate EventsKnown(db: Db) {
    forall key :: key in db.rows.purges ==> key.eventId in db.rows.events
  }

  lemma {:induction false} RunKeepsEvents(db: Db, steps: seq<Step>)
    requires EventsKnown(db)
    ensures EventsKnown(Exec(db, steps))
    decreases |steps|
  {
    if steps != [] {
      StepKeepsEvents(db, steps[0]);
      RunKeepsEvents(Next(db, steps[0]), steps[1..]);
    }
  }

  lemma {:induction false} StepKeepsEvents(db: Db, step: Step)
    requires EventsKnown(db)
    ensures EventsKnown(Next(db, step))
  {
  }

  lemma {:induction false} LongerThanAll(ids: set<string>) returns (n: nat)
    ensures forall s :: s in ids ==> |s| < n
    decreases |ids|
  {
    n := 0;
    if ids != {} {
      var x :| x in ids;
      var m := LongerThanAll(ids - {x});
      n := if m > |x| then m else |x| + 1;
      forall s | s in ids ensures |s| < n {
        assert s == x || s in ids - {x};
      }
    }
  }

  /** With the event live and the clock still at the start, an item is uploaded and missed. */
  lemma {:induction false} UploadIsMissed(db: Db, k: nat) returns (steps: seq<Step>)
    requires CanFinish(db, k) && forall i :: i in db.attempts[k].marking ==> i in db.rows.items
    requires EventLive(db, db.attempts[k].key.eventId) && db.rows.purges[db.attempts[k].key].startedAt == db.clock
    ensures !CleanFinishCovers(Exec(db, steps), db.attempts[k].key, k)
  {
    var key := db.attempts[k].key;
    var n := LongerThanAll(db.rows.items.Keys);
    var id := seq(n, _ => 'a');
    assert id !in db.rows.items;
    var add := AddItem(id, key.eventId, "", true, IMAGE);
    var added := Next(db, add);
    assert added == WithItem(db, id, Item(key.eventId, "", true, IMAGE, false, false, db.clock, None, None));
    var rest := FinishesCleanly(added, k, id);
    ExecFirst(db, add, rest);
    steps := [add] + rest;
    RunKeepsRead(added, rest, k);
    assert InScope(Exec(db, steps), key, id);
  }

  lemma {:induction false} RestoredFirst(db: Db, k: nat) returns (steps: seq<Step>)
    requires CanFinish(db, k) && (forall i :: i in db.attempts[k].marking ==> i in db.rows.items)
    requires EventsKnown(db) && db.rows.purges[db.attempts[k].key].startedAt == db.clock
    ensures !CleanFinishCovers(Exec(db, steps), db.attempts[k].key, k)
  {
    var e := db.attempts[k].key.eventId;
    if EventLive(db, e) {
      steps := UploadIsMissed(db, k);
    } else {
      assert Next(db, RestoreEvent(e)) == DoRestore(db, e);
      var rest := UploadIsMissed(DoRestore(db, e), k);
      ExecFirst(db, RestoreEvent(e), rest);
      steps := [RestoreEvent(e)] + rest;
    }
  }

  // ── Exactly which reads miss nothing ──

  lemma {:induction false} ExecJoined(db: Db, first: seq<Step>, second: seq<Step>)
    ensures Exec(db, first + second) == Exec(Exec(db, first), second)
    decreases |first|
  {
    if first == [] {
      assert first + second == second;
    } else {
      assert (first + second)[1..] == first[1..] + second;
      ExecJoined(Next(db, first[0]), first[1..], second);
    }
  }

  /** An attempt's read makes its clean finish cover every item of the purge, however
      the run goes on, exactly when it is made later than the instant the purge began. */
  lemma {:induction false} ReadCoversExactly(start: Db, steps: seq<Step>, k: nat, rows: seq<ItemId>)
    requires Init(start) && Enabled(Exec(start, steps), ReadItems(k, rows))
    ensures var db := Exec(start, steps);
            var key := db.attempts[k].key;
            (forall more: seq<Step> :: CleanFinishCovers(Exec(Next(db, ReadItems(k, rows)), more), key, k))
            <==> db.rows.purges[key].startedAt < db.clock
  {
    var db := Exec(start, steps);
    var key, read := db.attempts[k].key, Next(db, ReadItems(k, rows));
    ExecAppend(start, steps, ReadItems(k, rows));
    EveryRunKeepsPurgeInv(start, steps + [ReadItems(k, rows)]);
    assert read.attempts[k] == AfterRead(db.attempts[k], db.rows.items, rows, db.clock);
    assert AttemptOk(read, read.attempts[k]);
    if db.rows.purges[key].startedAt < db.clock {
      forall more: seq<Step> ensures CleanFinishCovers(Exec(read, more), key, k) {
        ExecJoined(start, steps + [ReadItems(k, rows)], more);
        EveryRunKeepsPurgeInv(start, steps + [ReadItems(k, rows)] + more);
        RunKeepsRead(read, more, k);
        LaterReadCovers(Exec(read, more), key, k);
      }
    } else {
      RunKeepsEvents(start, steps);
      EveryRunKeepsPurgeInv(start, steps);
      assert AttemptOk(db, db.attempts[k]);
      assert CanFinish(read, k) by {
        forall b, i | b in read.attempts[k].batches && i in b ensures i in read.rows.items {
          assert BatchOk(read, key, b);
        }
      }
      var more := RestoredFirst(read, k);
    }
  }

  /** Whatever else overlaps: a completed purge has purged every item of it as soon as
      one attempt that finished clean read after the instant the purge began. */
  lemma {:induction false} OneLaterReadCovers(start: Db, steps: seq<Step>, key: PurgeKey, k: nat)
    requires Init(start) && FinishedClean(Exec(start, steps), key, k)
    requires key in Exec(start, steps).rows.purges
    requires Exec(start, steps).rows.purges[key].startedAt < Exec(start, steps).attempts[k].readAt
    ensures forall i :: InScope(Exec(start, steps), key, i) ==> Exec(start, steps).rows.items[i].purgedAt.Some?
  {
    EveryRunKeepsPurgeInv(start, steps);
    LaterReadCovers(Exec(start, steps), key, k);
  }
}
