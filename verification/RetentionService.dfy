/** One whole attempt at a purge, as runPurge takes it with nothing interleaved:
    the loops over media types and batches, on rows updated in place. */
module RetentionService {
  import opened Prelude
  import opened RetentionTables
  import opened RetentionProtocol

  /** Cloudinary's answers, in the order the batches are sent; past the end, none came. */
  type Replies = seq<Reply>

  function ReplyTo(replies: Replies, n: nat): Reply {
    if n < |replies| then replies[n] else Refused
  }

  /** One request to delete files: their public ids, and what kind of file they are. */
  datatype Deletion = Deletion(publicIds: seq<string>, mediaType: MediaType)

  /** Cloudinary, as an attempt meets it: it answers each request in turn. */
  class Cloudinary {
    const replies: Replies
    var sent: seq<Deletion>

    constructor (replies: Replies)
      ensures this.replies == replies && sent == []
    {
      this.replies := replies;
      sent := [];
    }

    method DestroyAssets(publicIds: seq<string>, mediaType: MediaType) returns (reply: Reply)
      modifies this
      ensures sent == old(sent) + [Deletion(publicIds, mediaType)]
      ensures reply == ReplyTo(replies, |old(sent)|)
      ensures reply == if |old(sent)| < |replies| then replies[|old(sent)|] else Refused
    {
      reply := ReplyTo(replies, |sent|);
      sent := sent + [Deletion(publicIds, mediaType)];
    }
  }

  datatype PurgeOutcome = PurgeOutcome(purgedCount: nat, failedIds: set<ItemId>, completed: bool)

  /** The items with these ones purged. */
  function Purged(items: map<ItemId, Item>, ids: set<ItemId>, now: Time, key: PurgeKey): map<ItemId, Item> {
    map i | i in items ::
      if i in ids then items[i].(purgedAt := Some(now), purgedBy := Some(key), isArchived := true) else items[i]
  }

  function Ids(ids: seq<ItemId>): set<ItemId> {
    set i | i in ids
  }

  predicate NoDuplicates(ids: seq<ItemId>) {
    forall m, n :: 0 <= m < n < |ids| ==> ids[m] != ids[n]
  }

  lemma {:induction false} OfTypeDistinct(rows: seq<ItemId>, items: map<ItemId, Item>, mediaType: MediaType)
    requires NoDuplicates(rows)
    ensures NoDuplicates(OfType(rows, items, mediaType))
  {
    if rows != [] {
      OfTypeDistinct(rows[1..], items, mediaType);
    }
  }

  // ── What is sent, and what its answers leave ──

  function PublicIds(items: map<ItemId, Item>, batch: seq<ItemId>): seq<string>
    requires forall i :: i in batch ==> i in items
  {
    seq(|batch|, m requires 0 <= m < |batch| => items[batch[m]].publicId)
  }

  ghost predicate InRows(items: map<ItemId, Item>, batches: seq<seq<ItemId>>) {
    forall n :: 0 <= n < |batches| ==> forall i :: i in batches[n] ==> i in items
  }

  /** The requests that send these batches, each of one kind of file. */
  ghost function Deletions(items: map<ItemId, Item>, batches: seq<seq<ItemId>>, mediaType: MediaType): seq<Deletion>
    requires InRows(items, batches)
  {
    seq(|batches|, n requires 0 <= n < |batches| => Deletion(PublicIds(items, batches[n]), mediaType))
  }

  /** The item was sent in the nth of the batches, and the answer to that very one doesn't say its file is gone. */
  predicate DeniedAt(items: map<ItemId, Item>, batches: seq<seq<ItemId>>, replies: Replies, first: nat, n: nat,
      i: ItemId) {
    && n < |batches| && i in batches[n] && i in items
    && match ReplyTo(replies, first + n)
       case Answered(deleted) => items[i].publicId !in deleted
       case Refused => true
  }

  ghost predicate Denied(items: map<ItemId, Item>, batches: seq<seq<ItemId>>, replies: Replies, first: nat, i: ItemId) {
    exists n: nat :: DeniedAt(items, batches, replies, first, n, i)
  }

  ghost predicate IsDenied(
    items: map<ItemId, Item>, batches: seq<seq<ItemId>>, replies: Replies, first: nat, failed: set<ItemId>
  ) {
    forall i :: i in failed <==> Denied(items, batches, replies, first, i)
  }

  /** One batch more, answered in turn. */
  lemma {:induction false} DeniedOfMore(
    items: map<ItemId, Item>, batches: seq<seq<ItemId>>, batch: seq<ItemId>, replies: Replies, first: nat,
    failed: set<ItemId>, denied: set<ItemId>
  )
    requires IsDenied(items, batches, replies, first, failed) && forall i :: i in batch ==> i in items
    requires forall i :: i in denied <==>
               i in batch && !Confirms(ReplyTo(replies, first + |batches|), items[i].publicId)
    ensures IsDenied(items, batches + [batch], replies, first, failed + denied)
  {
    var more := batches + [batch];
    forall i ensures i in failed + denied <==> Denied(items, more, replies, first, i) {
      if i in failed {
        var n: nat :| DeniedAt(items, batches, replies, first, n, i);
        assert DeniedAt(items, more, replies, first, n, i);
      }
      if i in denied {
        assert DeniedAt(items, more, replies, first, |batches|, i);
      }
      if Denied(items, more, replies, first, i) {
        var n: nat :| DeniedAt(items, more, replies, first, n, i);
        assert n < |batches| ==> DeniedAt(items, batches, replies, first, n, i);
      }
    }
  }

  /** Two lists of batches sent one after the other. */
  lemma {:induction false} DeniedOfBoth(
    items: map<ItemId, Item>, x: seq<seq<ItemId>>, y: seq<seq<ItemId>>, replies: Replies, first: nat, f: set<ItemId>,
    g: set<ItemId>
  )
    requires IsDenied(items, x, replies, first, f) && IsDenied(items, y, replies, first + |x|, g)
    ensures IsDenied(items, x + y, replies, first, f + g)
  {
    forall i ensures i in f + g <==> Denied(items, x + y, replies, first, i) {
      if i in f {
        var n: nat :| DeniedAt(items, x, replies, first, n, i);
        assert DeniedAt(items, x + y, replies, first, n, i);
      }
      if i in g {
        var n: nat :| DeniedAt(items, y, replies, first + |x|, n, i);
        assert DeniedAt(items, x + y, replies, first, |x| + n, i);
      }
      if Denied(items, x + y, replies, first, i) {
        var n: nat :| DeniedAt(items, x + y, replies, first, n, i);
        if n < |x| {
          assert DeniedAt(items, x, replies, first, n, i);
        } else {
          assert DeniedAt(items, y, replies, first + |x|, n - |x|, i);
        }
      }
    }
  }

  /** Marking rows changes neither their files' names nor what is denied. */
  lemma {:induction false} DeniedBeforeMarking(
    items: map<ItemId, Item>, marked: set<ItemId>, now: Time, key: PurgeKey, batches: seq<seq<ItemId>>,
    replies: Replies, first: nat, failed: set<ItemId>
  )
    requires IsDenied(Purged(items, marked, now, key), batches, replies, first, failed)
    ensures IsDenied(items, batches, replies, first, failed)
  {
    forall i ensures Denied(items, batches, replies, first, i)
                     <==> Denied(Purged(items, marked, now, key), batches, replies, first, i)
    {
      forall n: nat ensures DeniedAt(items, batches, replies, first, n, i)
                            <==> DeniedAt(Purged(items, marked, now, key), batches, replies, first, n, i)
      {
      }
    }
  }

  // ── The batch loop ──

  /** One deletion sent, and what its answer confirms marked. */
  method PurgeBatch(
    repo: MediaRetentionRepository, cloud: Cloudinary, batch: seq<ItemId>, mediaType: MediaType, key: PurgeKey,
    now: Time
  ) returns (count: nat, failed: set<ItemId>)
    requires forall i :: i in batch ==> i in repo.items && repo.items[i].purgedAt.None?
    modifies repo`items, cloud
    ensures cloud.sent == old(cloud.sent) + [Deletion(PublicIds(old(repo.items), batch), mediaType)]
    ensures var reply := ReplyTo(cloud.replies, |old(cloud.sent)|);
            forall i :: i in failed <==>
                          i in batch && !(reply.Answered? && old(repo.items)[i].publicId in reply.deleted)
    ensures repo.items == Purged(old(repo.items), Ids(batch) - failed, now, key)
    ensures count == |Ids(batch) - failed|
  {
    var reply := cloud.DestroyAssets(PublicIds(repo.items, batch), mediaType);
    var done := Done(batch, repo.items, reply);
    failed := set i | i in batch && i !in done;
    assert Unpurged(repo.Rows(), done) == done == Ids(batch) - failed;
    count := repo.MarkPurged(done, now, key);
  }

  lemma {:induction false} PurgedTwice(
    items: map<ItemId, Item>, first: set<ItemId>, second: set<ItemId>, now: Time, key: PurgeKey)
    ensures Purged(Purged(items, first, now, key), second, now, key) == Purged(items, first + second, now, key)
  {
  }

  /** Exactly these batches have been sent, in turn, and failed is exactly what their own answers don't confirm. */
  ghost predicate SentSoFar(
    items: map<ItemId, Item>, batches: seq<seq<ItemId>>, mediaType: MediaType, sent0: seq<Deletion>,
    sent: seq<Deletion>, replies: Replies, failed: set<ItemId>
  ) {
    && InRows(items, batches) && sent == sent0 + Deletions(items, batches, mediaType)
    && IsDenied(items, batches, replies, |sent0|, failed) && failed <= Ids(Flatten(batches))
  }

  /** Of the ids sent, exactly those not failed are marked and counted. */
  ghost predicate MarkedSoFar(
    items: map<ItemId, Item>, after: map<ItemId, Item>, ids: seq<ItemId>, count: nat, failed: set<ItemId>, now: Time,
    key: PurgeKey
  ) {
    after == Purged(items, Ids(ids) - failed, now, key) && count == |Ids(ids) - failed|
  }

  lemma {:induction false} FlattenOneMore(batches: seq<seq<ItemId>>, batch: seq<ItemId>)
    ensures Flatten(batches + [batch]) == Flatten(batches) + batch
  {
    FlattenConcat(batches, [batch]);
    assert Flatten([batch]) == batch + Flatten([]);
    assert batch + [] == batch;
  }

  /** The next batch of a list without duplicates: none of it sent before. */
  lemma {:induction false} NextBatch(batches: seq<seq<ItemId>>, b: nat)
    requires b < |batches| && NoDuplicates(Flatten(batches))
    ensures batches[..b + 1] == batches[..b] + [batches[b]]
    ensures Flatten(batches[..b + 1]) == Flatten(batches[..b]) + batches[b]
    ensures forall i :: i in batches[b] ==> i in Flatten(batches) && i !in Flatten(batches[..b])
  {
    assert batches[..b + 1] == batches[..b] + [batches[b]];
    assert batches == batches[..b + 1] + batches[b + 1..];
    FlattenOneMore(batches[..b], batches[b]);
    FlattenConcat(batches[..b + 1], batches[b + 1..]);
    assert Flatten(batches) == Flatten(batches[..b]) + batches[b] + Flatten(batches[b + 1..]);
    NoneTwice(Flatten(batches[..b]), batches[b], Flatten(batches[b + 1..]));
  }

  lemma {:induction false} NoneTwice(a: seq<ItemId>, b: seq<ItemId>, c: seq<ItemId>)
    requires NoDuplicates(a + b + c)
    ensures forall i :: i in b ==> i in a + b + c && i !in a
  {
    var all := a + b + c;
    forall i | i in b ensures i in all && i !in a {
      var n :| 0 <= n < |b| && b[n] == i;
      assert all[|a| + n] == i;
      assert forall m :: 0 <= m < |a| ==> all[m] == a[m];
    }
  }

  /** What is marked before and with one batch more. */
  lemma {:induction false} MarkedWithMore(
    sent: seq<ItemId>, batch: seq<ItemId>, failed: set<ItemId>, denied: set<ItemId>
  )
    requires failed <= Ids(sent) && denied <= Ids(batch) && forall i :: i in batch ==> i !in sent
    ensures Ids(sent + batch) - (failed + denied) == (Ids(sent) - failed) + (Ids(batch) - denied)
    ensures |Ids(sent + batch) - (failed + denied)| == |Ids(sent) - failed| + |Ids(batch) - denied|
  {
    assert Ids(sent + batch) == Ids(sent) + Ids(batch);
    assert Ids(sent) - failed !! Ids(batch) - denied;
  }

  lemma {:induction false} OneMoreSent(
    items: map<ItemId, Item>, batches: seq<seq<ItemId>>, batch: seq<ItemId>, mediaType: MediaType, sent0: seq<Deletion>,
    sent: seq<Deletion>, replies: Replies, failed: set<ItemId>, denied: set<ItemId>
  )
    requires SentSoFar(items, batches, mediaType, sent0, sent, replies, failed) && forall i :: i in batch ==> i in items
    requires forall i :: i in denied <==> i in batch && !Confirms(ReplyTo(replies, |sent|), items[i].publicId)
    ensures SentSoFar(items, batches + [batch], mediaType, sent0, sent + [Deletion(PublicIds(items, batch), mediaType)],
                      replies,
                      failed + denied)
  {
    DeniedOfMore(items, batches, batch, replies, |sent0|, failed, denied);
    FlattenOneMore(batches, batch);
    assert Deletions(items, batches + [batch], mediaType)
        == Deletions(items, batches, mediaType) + [Deletion(PublicIds(items, batch), mediaType)];
  }

  lemma {:induction false} SentBeforeMarking(
    items: map<ItemId, Item>, marked: set<ItemId>, now: Time, key: PurgeKey, batches: seq<seq<ItemId>>,
    mediaType: MediaType,
    sent0: seq<Deletion>, sent: seq<Deletion>, replies: Replies, failed: set<ItemId>
  )
    requires SentSoFar(Purged(items, marked, now, key), batches, mediaType, sent0, sent, replies, failed)
    ensures SentSoFar(items, batches, mediaType, sent0, sent, replies, failed)
  {
    assert InRows(items, batches);
    DeniedBeforeMarking(items, marked, now, key, batches, replies, |sent0|, failed);
    forall n | 0 <= n < |batches|
      ensures PublicIds(Purged(items, marked, now, key), batches[n]) == PublicIds(items, batches[n])
    {
    }
    assert Deletions(Purged(items, marked, now, key), batches, mediaType) == Deletions(items, batches, mediaType);
  }

  lemma {:induction false} OneMoreMarked(
    items: map<ItemId, Item>, before: map<ItemId, Item>, after: map<ItemId, Item>, ids: seq<ItemId>, batch: seq<ItemId>,
    count: nat,
    failed: set<ItemId>, marked: nat, denied: set<ItemId>, now: Time, key: PurgeKey
  )
    requires MarkedSoFar(items, before, ids, count, failed, now, key) && failed <= Ids(ids) && denied <= Ids(batch)
    requires forall i :: i in batch ==> i !in ids
    requires after == Purged(before, Ids(batch) - denied, now, key) && marked == |Ids(batch) - denied|
    ensures MarkedSoFar(items, after, ids + batch, count + marked, failed + denied, now, key)
  {
    MarkedWithMore(ids, batch, failed, denied);
    PurgedTwice(items, Ids(ids) - failed, Ids(batch) - denied, now, key);
  }

  lemma {:induction false} BatchUntouched(
    items: map<ItemId, Item>, after: map<ItemId, Item>, ids: seq<ItemId>, batch: seq<ItemId>, count: nat,
    failed: set<ItemId>, now: Time, key: PurgeKey
  )
    requires MarkedSoFar(items, after, ids, count, failed, now, key)
    requires forall i :: i in batch ==> i in items && i !in ids
    ensures forall i :: i in batch ==> i in after && after[i] == items[i]
    ensures PublicIds(after, batch) == PublicIds(items, batch)
  {
  }

  /** The next batch of the loop: sent, its confirmed items marked, the rest failed. */
  method PurgeNext(
    repo: MediaRetentionRepository, cloud: Cloudinary, batches: seq<seq<ItemId>>, b: nat, mediaType: MediaType,
    key: PurgeKey, now: Time,
    count: nat, failed: set<ItemId>, ghost items: map<ItemId, Item>, ghost sent0: seq<Deletion>
  ) returns (nowCount: nat, nowFailed: set<ItemId>)
    requires b < |batches| && NoDuplicates(Flatten(batches))
    requires forall i :: i in Flatten(batches) ==> i in items && items[i].purgedAt.None?
    requires SentSoFar(items, batches[..b], mediaType, sent0, cloud.sent, cloud.replies, failed)
    requires MarkedSoFar(items, repo.items, Flatten(batches[..b]), count, failed, now, key)
    modifies repo`items, cloud
    ensures SentSoFar(items, batches[..b + 1], mediaType, sent0, cloud.sent, cloud.replies, nowFailed)
    ensures MarkedSoFar(items, repo.items, Flatten(batches[..b + 1]), nowCount, nowFailed, now, key)
  {
    ghost var before, sent := repo.items, cloud.sent;
    NextBatch(batches, b);
    BatchUntouched(items, before, Flatten(batches[..b]), batches[b], count, failed, now, key);
    var marked, denied := PurgeBatch(repo, cloud, batches[b], mediaType, key, now);
    OneMoreSent(items, batches[..b], batches[b], mediaType, sent0, sent, cloud.replies, failed, denied);
    OneMoreMarked(items, before, repo.items, Flatten(batches[..b]), batches[b], count, failed, marked, denied, now,
                  key);
    nowCount, nowFailed := count + marked, failed + denied;
  }

  /** The batch loop for one media type: each batch sent once, in order; an item is
      marked exactly when the answer to its own batch confirms it. */
  method PurgeBatches(
    repo: MediaRetentionRepository, cloud: Cloudinary, ofType: seq<ItemId>, mediaType: MediaType, key: PurgeKey,
    now: Time
  ) returns (count: nat, failed: set<ItemId>)
    requires NoDuplicates(ofType)
    requires forall i :: i in ofType ==> i in repo.items && repo.items[i].purgedAt.None?
    modifies repo`items, cloud
    ensures SentSoFar(old(repo.items), Chunk(ofType, CLOUDINARY_DELETE_BATCH_LIMIT), mediaType, old(cloud.sent),
                      cloud.sent, cloud.replies, failed)
    ensures MarkedSoFar(old(repo.items), repo.items, ofType, count, failed, now, key)
  {
    count, failed := 0, {};
    ghost var items, sent0 := repo.items, cloud.sent;
    var batches := Chunk(ofType, CLOUDINARY_DELETE_BATCH_LIMIT);
    NothingSent(items, mediaType, sent0, cloud.replies, now, key);
    for b := 0 to |batches|
      invariant SentSoFar(items, batches[..b], mediaType, sent0, cloud.sent, cloud.replies, failed)
      invariant MarkedSoFar(items, repo.items, Flatten(batches[..b]), count, failed, now, key)
    {
      count, failed := PurgeNext(repo, cloud, batches, b, mediaType, key, now, count, failed, items, sent0);
    }
    assert batches[..|batches|] == batches;
  }

  lemma {:induction false} NothingSent(
    items: map<ItemId, Item>, mediaType: MediaType, sent0: seq<Deletion>, replies: Replies, now: Time, key: PurgeKey)
    ensures SentSoFar(items, [], mediaType, sent0, sent0, replies, {})
    ensures MarkedSoFar(items, items, Flatten([]), 0, {}, now, key)
  {
    assert Ids([]) - {} == {};
    assert Purged(items, {}, now, key) == items;
  }

  // ── A whole run ──

  /** Every row is outside the folder, an image or a video, and only one of them. */
  lemma {:induction false} RowsSplit(rows: seq<ItemId>, items: map<ItemId, Item>)
    requires NoDuplicates(rows) && forall i :: i in rows ==> i in items
    ensures var hidden, images, videos := Outside(rows, items), OfType(rows, items, IMAGE), OfType(rows, items, VIDEO);
            && NoDuplicates(images) && NoDuplicates(videos)
            && hidden + Ids(images) + Ids(videos) == Ids(rows)
            && hidden !! Ids(images) && (hidden + Ids(images)) !! Ids(videos)
  {
    OfTypeDistinct(rows, items, IMAGE);
    OfTypeDistinct(rows, items, VIDEO);
  }

  lemma {:induction false} RowSizes(rows: seq<ItemId>, items: map<ItemId, Item>)
    requires NoDuplicates(rows) && forall i :: i in rows ==> i in items
    ensures var hidden, images, videos := Outside(rows, items), OfType(rows, items, IMAGE), OfType(rows, items, VIDEO);
            |hidden| + |Ids(images)| + |Ids(videos)| == |rows|
  {
    RowsSplit(rows, items);
    DistinctSize(rows);
    DisjointSizes(Outside(rows, items), Ids(OfType(rows, items, IMAGE)), Ids(OfType(rows, items, VIDEO)));
  }

  lemma {:induction false} DisjointSizes(a: set<ItemId>, b: set<ItemId>, c: set<ItemId>)
    requires a !! b && (a + b) !! c
    ensures |a + b + c| == |a| + |b| + |c|
  {
  }

  lemma {:induction false} DistinctSize(ids: seq<ItemId>)
    requires NoDuplicates(ids)
    ensures |Ids(ids)| == |ids|
  {
    if ids != [] {
      DistinctSize(ids[1..]);
      assert Ids(ids) == {ids[0]} + Ids(ids[1..]);
    }
  }

  /** The requests a run sends: the images' batches, then the videos'. */
  ghost function RunDeletions(items: map<ItemId, Item>, rows: seq<ItemId>): seq<Deletion>
    requires forall i :: i in rows ==> i in items
  {
    var images, videos := ImageBatches(items, rows), VideoBatches(items, rows);
    BatchesInRows(items, rows);
    Deletions(items, images, IMAGE) + Deletions(items, videos, VIDEO)
  }

  function ImageBatches(items: map<ItemId, Item>, rows: seq<ItemId>): seq<seq<ItemId>> {
    Chunk(OfType(rows, items, IMAGE), CLOUDINARY_DELETE_BATCH_LIMIT)
  }

  function VideoBatches(items: map<ItemId, Item>, rows: seq<ItemId>): seq<seq<ItemId>> {
    Chunk(OfType(rows, items, VIDEO), CLOUDINARY_DELETE_BATCH_LIMIT)
  }

  lemma {:induction false} BatchesInRows(items: map<ItemId, Item>, rows: seq<ItemId>)
    requires forall i :: i in rows ==> i in items
    ensures InRows(items, ImageBatches(items, rows)) && InRows(items, VideoBatches(items, rows))
  {
    forall batches, n, i | batches in {ImageBatches(items, rows), VideoBatches(items, rows)} && 0 <= n < |batches| &&
        i in batches[n]
      ensures i in items
    {
      ChunksInFlatten(batches, batches[n], i);
    }
  }

  /** What a run makes of the rows it read. Every batch is sent once, in order. Failed are exactly the items whose own
      batch's answer doesn't say their file is gone; every other row is purged, and
      no row besides; the count is exactly the rows purged. */
  ghost predicate RunResult(
    before: map<ItemId, Item>, after: map<ItemId, Item>, rows: seq<ItemId>, o: PurgeOutcome, replies: Replies,
    sent0: seq<Deletion>, sent: seq<Deletion>, now: Time, key: PurgeKey
  ) {
    && (forall i :: i in rows ==> i in before)
    && sent == sent0 + RunDeletions(before, rows)
    && IsDenied(before, DeleteBatches(rows, before), replies, |sent0|, o.failedIds)
    && o.failedIds <= Ids(rows) && o.purgedCount == |rows| - |o.failedIds|
    && (o.completed <==> o.failedIds == {})
    && after == Purged(before, Ids(rows) - o.failedIds, now, key)
  }

  /** The three stages of a run add up: hidden rows, images, videos. */
  lemma {:induction false} RunAddsUp(
    items: map<ItemId, Item>, rows: seq<ItemId>, hidden: set<ItemId>, images: set<ItemId>, videos: set<ItemId>,
    f: set<ItemId>, g: set<ItemId>
  )
    requires NoDuplicates(rows) && forall i :: i in rows ==> i in items
    requires hidden == Outside(rows, items)
    requires images == Ids(OfType(rows, items, IMAGE)) && videos == Ids(OfType(rows, items, VIDEO))
    requires f <= images && g <= videos
    ensures hidden + (images - f) + (videos - g) == Ids(rows) - (f + g)
    ensures f + g <= Ids(rows)
    ensures |hidden| + |images - f| + |videos - g| == |rows| - |f + g|
  {
    RowsSplit(rows, items);
    RowSizes(rows, items);
    SplitRows(hidden, images, videos, f, g);
  }

  lemma {:induction false} SplitRows(hidden: set<ItemId>, images: set<ItemId>, videos: set<ItemId>, f: set<ItemId>,
      g: set<ItemId>)
    requires hidden !! images && (hidden + images) !! videos && f <= images && g <= videos
    ensures hidden + (images - f) + (videos - g) == (hidden + images + videos) - (f + g)
    ensures |hidden| + |images - f| + |videos - g| == |hidden| + |images| + |videos| - |f + g|
  {
    FailedSizes(images, f);
    FailedSizes(videos, g);
    assert f !! g;
  }

  lemma {:induction false} FailedSizes(all: set<ItemId>, failed: set<ItemId>)
    requires failed <= all
    ensures |all - failed| == |all| - |failed|
  {
    assert all == (all - failed) + failed;
  }

  lemma {:induction false} RowsAreUnpurged(t: Tables, key: PurgeKey, rows: seq<ItemId>)
    requires key in t.purges && IsItemsToPurge(t, key, rows)
    ensures NoDuplicates(rows) && forall i :: i in rows ==> i in t.items && t.items[i].purgedAt.None?
  {
  }

  /** One whole run of runPurge: None when the purge is finished or another sweep holds
      it. Otherwise every batch of the rows findItemsToPurge returned is sent once, in
      order, the rows are worked off, and the purge's own row records it. */
  method RunPurge(
    repo: MediaRetentionRepository, cloud: Cloudinary, key: PurgeKey, now: Time, rows: seq<ItemId>
  ) returns (outcome: Option<PurgeOutcome>)
    requires key in repo.purges ==> IsItemsToPurge(repo.Rows(), key, rows)
    modifies repo`items, repo`purges, cloud
    ensures outcome.None? <==>
              || key !in old(repo.purges) || old(repo.purges)[key].completedAt.Some?
              || (old(repo.purges)[key].leaseUntil.Some? && now <= old(repo.purges)[key].leaseUntil.value)
    ensures outcome.None? ==> repo.Rows() == old(repo.Rows()) && cloud.sent == old(cloud.sent)
    ensures outcome.Some? ==>
              && RunResult(old(repo.items), repo.items, rows, outcome.value, cloud.replies, old(cloud.sent), cloud.sent,
                           now, key)
              && repo.purges == WithRun(old(repo.purges), key, outcome.value, now)
  {
    var taken := repo.TakeLeaseOf(key, now, now + MEDIA_PURGE_LEASE_MS);
    if !taken {
      return None;
    }
    assert repo.items == old(repo.items) && repo.purges == Leased(old(repo.purges), key, now);
    RowsAreUnpurged(old(repo.Rows()), key, rows);
    var o := WorkOff(repo, cloud, key, now, rows);
    Report(repo, key, o, now, old(repo.purges));
    outcome := Some(o);
  }

  /** The end of a run: its lease released and what it did recorded. */
  method Report(repo: MediaRetentionRepository, key: PurgeKey, o: PurgeOutcome, now: Time,
      ghost before: map<PurgeKey, Purge>)
    requires key in before && repo.purges == Leased(before, key, now)
    modifies repo`purges
    ensures repo.purges == WithRun(before, key, o, now)
  {
    repo.Finish(key, o.purgedCount, |o.failedIds|, if o.completed then Some(now) else None);
  }

  /** One media type's share of a run, said of the rows as they were before it. */
  method PurgeType(
    repo: MediaRetentionRepository, cloud: Cloudinary, ofType: seq<ItemId>, mediaType: MediaType, key: PurgeKey,
    now: Time,
    ghost before: map<ItemId, Item>, ghost done: set<ItemId>
  ) returns (count: nat, failed: set<ItemId>)
    requires NoDuplicates(ofType) && repo.items == Purged(before, done, now, key)
    requires forall i :: i in ofType ==> i in before && before[i].purgedAt.None? && i !in done
    modifies repo`items, cloud
    ensures SentSoFar(before, Chunk(ofType, CLOUDINARY_DELETE_BATCH_LIMIT), mediaType, old(cloud.sent), cloud.sent,
                      cloud.replies, failed)
    ensures failed <= Ids(ofType)
    ensures repo.items == Purged(before, done + (Ids(ofType) - failed), now, key) && count == |Ids(ofType) - failed|
  {
    ghost var batches, sent0 := Chunk(ofType, CLOUDINARY_DELETE_BATCH_LIMIT), cloud.sent;
    count, failed := PurgeBatches(repo, cloud, ofType, mediaType, key, now);
    SentBeforeMarking(before, done, now, key, batches, mediaType, sent0, cloud.sent, cloud.replies, failed);
    PurgedTwice(before, done, Ids(ofType) - failed, now, key);
  }

  /** The images' batches and then the videos', sent and answered, are the run's. */
  lemma {:induction false} BothTypesSent(
    before: map<ItemId, Item>, rows: seq<ItemId>, sent0: seq<Deletion>, sent1: seq<Deletion>, sent2: seq<Deletion>,
    replies: Replies,
    f: set<ItemId>, g: set<ItemId>
  )
    requires forall i :: i in rows ==> i in before
    requires SentSoFar(before, ImageBatches(before, rows), IMAGE, sent0, sent1, replies, f)
    requires SentSoFar(before, VideoBatches(before, rows), VIDEO, sent1, sent2, replies, g)
    ensures IsDenied(before, DeleteBatches(rows, before), replies, |sent0|, f + g)
    ensures sent2 == sent0 + RunDeletions(before, rows)
  {
    DeniedOfBoth(before, ImageBatches(before, rows), VideoBatches(before, rows), replies, |sent0|, f, g);
  }

  lemma {:induction false} BothTypesMarked(
    before: map<ItemId, Item>, after: map<ItemId, Item>, rows: seq<ItemId>, hidden: set<ItemId>, images: seq<ItemId>,
    videos: seq<ItemId>,
    f: set<ItemId>, g: set<ItemId>, o: PurgeOutcome, now: Time, key: PurgeKey
  )
    requires NoDuplicates(rows) && forall i :: i in rows ==> i in before
    requires hidden == Outside(rows, before) && images == OfType(rows, before, IMAGE) &&
               videos == OfType(rows, before, VIDEO)
    requires f <= Ids(images) && g <= Ids(videos) && o.failedIds == f + g
    requires o.purgedCount == |hidden| + |Ids(images) - f| + |Ids(videos) - g|
    requires after == Purged(before, hidden + (Ids(images) - f) + (Ids(videos) - g), now, key)
    ensures o.failedIds <= Ids(rows) && o.purgedCount == |rows| - |o.failedIds|
    ensures after == Purged(before, Ids(rows) - o.failedIds, now, key)
  {
    RunAddsUp(before, rows, hidden, Ids(images), Ids(videos), f, g);
  }

  /** The part of a run that deletes and marks: hidden rows, then images, then videos. */
  method WorkOff(repo: MediaRetentionRepository, cloud: Cloudinary, key: PurgeKey, now: Time, rows: seq<ItemId>)
    returns (o: PurgeOutcome)
    requires NoDuplicates(rows) && forall i :: i in rows ==> i in repo.items && repo.items[i].purgedAt.None?
    modifies repo`items, cloud
    ensures RunResult(old(repo.items), repo.items, rows, o, cloud.replies, old(cloud.sent), cloud.sent, now, key)
  {
    ghost var before, sent0 := repo.items, cloud.sent;
    RowsSplit(rows, before);
    var hidden := Outside(rows, repo.items);
    var images, videos := OfType(rows, repo.items, IMAGE), OfType(rows, repo.items, VIDEO);
    var hiddenCount := HideOutside(repo, hidden, key, now);
    var imageCount, f := PurgeType(repo, cloud, images, IMAGE, key, now, before, hidden);
    ghost var sent1 := cloud.sent;
    var videoCount, g := PurgeType(repo, cloud, videos, VIDEO, key, now, before, hidden + (Ids(images) - f));
    o := PurgeOutcome(hiddenCount + imageCount + videoCount, f + g, f + g == {});
    BothTypesSent(before, rows, sent0, sent1, cloud.sent, cloud.replies, f, g);
    BothTypesMarked(before, repo.items, rows, hidden, images, videos, f, g, o, now, key);
  }

  method HideOutside(repo: MediaRetentionRepository, hidden: set<ItemId>, key: PurgeKey, now: Time) returns (count: nat)
    requires forall i :: i in hidden ==> i in repo.items && repo.items[i].purgedAt.None?
    modifies repo`items
    ensures repo.items == Purged(old(repo.items), hidden, now, key) && count == |hidden|
  {
    assert Unpurged(repo.Rows(), hidden) == hidden;
    count := repo.MarkPurged(hidden, now, key);
  }

  function Leased(purges: map<PurgeKey, Purge>, key: PurgeKey, now: Time): map<PurgeKey, Purge>
    requires key in purges
  {
    purges[key := purges[key].(leaseUntil := Some(now + MEDIA_PURGE_LEASE_MS),
                               attemptCount := purges[key].attemptCount + 1)]
  }

  /** The purge's row after an attempt that was leased and finished. */
  function WithRun(purges: map<PurgeKey, Purge>, key: PurgeKey, o: PurgeOutcome, now: Time): map<PurgeKey, Purge>
    requires key in purges
  {
    var was := purges[key];
    purges[key := was.(
      attemptCount := was.attemptCount + 1, leaseUntil := None, purgedCount := was.purgedCount + o.purgedCount,
      failedCount := |o.failedIds|, completedAt := if o.completed then Some(now) else None)]
  }
}
