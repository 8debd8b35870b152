/** Invites as the reminder path reads and writes them: the conditional claim,
    the grouped release, and who is due a reminder. */
module ReminderRows {
  import opened Prelude

  type InviteId = string
  type GuestId = string

  const REMINDER_COOLDOWN_MS: int := 24 * HOUR_MS

  datatype Status = PENDING | ACCEPTED | DECLINED

  datatype Invite = Invite(
    guestId: GuestId, status: Status, isArchived: bool, deliveredAt: Option<Time>, expiresAt: Option<Time>,
    lastRemindedAt: Option<Time>)

  type Invites = map<InviteId, Invite>

  // ── Claim ──

  predicate Claimable(row: Invite, cutoff: Time) {
    !row.isArchived && row.status == PENDING && (row.lastRemindedAt.None? || row.lastRemindedAt.value <= cutoff)
  }

  function Claimed(invites: Invites, ids: set<InviteId>, cutoff: Time): set<InviteId> {
    set id | id in ids && id in invites && Claimable(invites[id], cutoff)
  }

  function ClaimReminders(invites: Invites, ids: set<InviteId>, cutoff: Time, claimedAt: Time): Invites {
    map id | id in invites ::
      if id in Claimed(invites, ids, cutoff) then invites[id].(lastRemindedAt := Some(claimedAt)) else invites[id]
  }

  // ── Release ──

  datatype Unreached = Unreached(id: InviteId, previous: Option<Time>)

  predicate Names(releases: seq<Unreached>, n: nat, id: InviteId)
    requires n <= |releases|
  {
    exists m :: 0 <= m < n && releases[m].id == id
  }

  /** One invite put back on its own: only while it still carries this claim. */
  function ReleaseOne(invites: Invites, release: Unreached, claimedAt: Time): Invites {
    if release.id in invites && invites[release.id].lastRemindedAt == Some(claimedAt) then
      invites[release.id := invites[release.id].(lastRemindedAt := release.previous)]
    else invites
  }

  /** The releases one invite at a time, in order. */
  function ReleaseEach(invites: Invites, releases: seq<Unreached>, claimedAt: Time): Invites
    decreases |releases|
  {
    if releases == [] then invites
    else ReleaseEach(ReleaseOne(invites, releases[0], claimedAt), releases[1..], claimedAt)
  }

  predicate DistinctIds(releases: seq<Unreached>) {
    forall m, n :: 0 <= m < n < |releases| ==> releases[m].id != releases[n].id
  }

  /** What releasing each on its own comes to, row by row. */
  lemma {:induction false} ReleaseEachRow(invites: Invites, releases: seq<Unreached>, claimedAt: Time, id: InviteId)
    requires DistinctIds(releases)
    ensures var after := ReleaseEach(invites, releases, claimedAt);
            && after.Keys == invites.Keys
            && (id in invites && (!Names(releases, |releases|, id) || invites[id].lastRemindedAt != Some(claimedAt)) ==>
                after[id] == invites[id])
            && (forall m ::
                  && 0 <= m < |releases| && releases[m].id == id
                  && id in invites && invites[id].lastRemindedAt == Some(claimedAt) ==>
                  after[id] == invites[id].(lastRemindedAt := releases[m].previous))
    decreases |releases|
  {
    if releases != [] {
      var next := ReleaseOne(invites, releases[0], claimedAt);
      var rest := releases[1..];
      ReleaseEachRow(next, rest, claimedAt, id);
      assert forall m :: 0 < m < |releases| ==> releases[m] == rest[m - 1];
      if Names(rest, |rest|, id) {
        var m :| 0 <= m < |rest| && rest[m].id == id;
        assert releases[m + 1].id == id;
      }
    }
  }

  class InviteRepository {
    var invites: Invites

    constructor (invites: Invites)
      ensures this.invites == invites
    {
      this.invites := invites;
    }

    method Claim(ids: set<InviteId>, cutoff: Time, claimedAt: Time) returns (claimed: set<InviteId>)
      modifies this
      ensures claimed == Claimed(old(invites), ids, cutoff)
      ensures invites == ClaimReminders(old(invites), ids, cutoff, claimedAt)
      ensures forall id :: id in claimed <==>
                && id in ids && id in old(invites) && !old(invites)[id].isArchived && old(invites)[id].status == PENDING
                && (old(invites)[id].lastRemindedAt.None? || old(invites)[id].lastRemindedAt.value <= cutoff)
      ensures invites.Keys == old(invites).Keys && forall id :: id in invites ==>
                invites[id] == if id in claimed then old(invites)[id].(lastRemindedAt := Some(claimedAt))
                               else old(invites)[id]
    {
      claimed := set id | id in ids && id in invites && Claimable(invites[id], cutoff);
      invites := map id | id in invites ::
        if id in claimed then invites[id].(lastRemindedAt := Some(claimedAt)) else invites[id];
    }

    /** One write per distinct previous value comes to each invite's own previous value. */
    method Release(releases: seq<Unreached>, claimedAt: Time)
      requires DistinctIds(releases)
      modifies this
      ensures invites == ReleaseEach(old(invites), releases, claimedAt)
    {
      var byPrevious := GroupByPrevious(releases);
      var left := byPrevious.Keys;
      ghost var before := invites;
      while left != {}
        invariant left <= byPrevious.Keys
        invariant ReleasedBut(before, invites, releases, claimedAt, left)
        decreases |left|
      {
        var previous :| previous in left;
        ReleaseGroup(byPrevious[previous], previous, claimedAt);
        left := left - {previous};
      }
      AllReleased(before, invites, releases, claimedAt);
    }

    method ReleaseGroup(ids: set<InviteId>, previous: Option<Time>, claimedAt: Time)
      modifies this
      ensures invites.Keys == old(invites).Keys
      ensures forall id :: id in invites ==>
                invites[id] == if id in ids && old(invites)[id].lastRemindedAt == Some(claimedAt)
                               then old(invites)[id].(lastRemindedAt := previous) else old(invites)[id]
    {
      invites := map id | id in invites ::
        if id in ids && invites[id].lastRemindedAt == Some(claimedAt) then invites[id].(lastRemindedAt := previous)
        else invites[id];
    }
  }

  method GroupByPrevious(releases: seq<Unreached>) returns (byPrevious: map<Option<Time>, set<InviteId>>)
    ensures Grouped(byPrevious, releases, |releases|)
  {
    byPrevious := map[];
    for n := 0 to |releases|
      invariant Grouped(byPrevious, releases, n)
    {
      var r := releases[n];
      var group := if r.previous in byPrevious then byPrevious[r.previous] else {};
      byPrevious := byPrevious[r.previous := group + {r.id}];
    }
  }

  /** Every release but those whose previous value is in `left` has been written. */
  ghost predicate ReleasedBut(before: Invites, after: Invites, releases: seq<Unreached>, claimedAt: Time,
      left: set<Option<Time>>) {
    && after.Keys == before.Keys
    && (forall id :: id in before && !Names(releases, |releases|, id) ==> after[id] == before[id])
    && (forall m :: 0 <= m < |releases| && releases[m].id in before ==>
          var row := before[releases[m].id];
          after[releases[m].id] ==
          if row.lastRemindedAt == Some(claimedAt) && releases[m].previous !in left
          then row.(lastRemindedAt := releases[m].previous) else row)
  }

  lemma {:induction false} AllReleased(before: Invites, after: Invites, releases: seq<Unreached>, claimedAt: Time)
    requires DistinctIds(releases) && ReleasedBut(before, after, releases, claimedAt, {})
    ensures after == ReleaseEach(before, releases, claimedAt)
  {
    ReleaseEachRow(before, releases, claimedAt, "");
    forall id | id in before ensures after[id] == ReleaseEach(before, releases, claimedAt)[id] {
      ReleaseEachRow(before, releases, claimedAt, id);
    }
  }

  /** Each group holds the ids that share its previous value. */
  ghost predicate Grouped(byPrevious: map<Option<Time>, set<InviteId>>, releases: seq<Unreached>, n: nat)
    requires n <= |releases|
  {
    && (forall m :: 0 <= m < n ==>
        releases[m].previous in byPrevious && releases[m].id in byPrevious[releases[m].previous])
    && (forall p, id :: p in byPrevious && id in byPrevious[p] ==>
        exists m :: 0 <= m < n && releases[m] == Unreached(id, p))
  }

  // ── Who is due a reminder ──

  datatype SkipReason = ALREADY_RESPONDED | NOT_INVITED_YET | INVITE_EXPIRED | RECENTLY_REMINDED | STATE_CHANGED

  /** One of a guest's live invites, as loaded. */
  datatype Candidate = Candidate(id: InviteId, row: Invite)

  datatype Verdict = Remind(target: Candidate)
    | Skip(reason: SkipReason, invite: Candidate, nextEligibleAt: Option<Time>)

  function FindAnswered(group: seq<Candidate>): Option<Candidate> {
    if group == [] then None else if group[0].row.status != PENDING then Some(group[0]) else FindAnswered(group[1..])
  }

  /** The invite delivered last; the earlier in the list of two delivered at once. */
  function LatestDelivered(group: seq<Candidate>): Option<Candidate> {
    if group == [] then None
    else
      var before := LatestDelivered(group[..|group| - 1]);
      var last := group[|group| - 1];
      if last.row.deliveredAt.None? then before
      else if before.Some? && before.value.row.deliveredAt.Some? &&
          before.value.row.deliveredAt.value >= last.row.deliveredAt.value then before
      else Some(last)
  }

  function LatestReminder(group: seq<Candidate>): Option<Time> {
    if group == [] then None
    else
      var before := LatestReminder(group[..|group| - 1]);
      var last := group[|group| - 1].row.lastRemindedAt;
      if last.Some? && (before.None? || last.value > before.value) then last else before
  }

  function Classify(group: seq<Candidate>, now: Time): Verdict
    requires group != []
  {
    var answered := FindAnswered(group);
    var target := LatestDelivered(group);
    var last := LatestReminder(group);
    if answered.Some? then Skip(ALREADY_RESPONDED, answered.value, None)
    else if target.None? then Skip(NOT_INVITED_YET, group[0], None)
    else if target.value.row.expiresAt.Some? && target.value.row.expiresAt.value < now
    then Skip(INVITE_EXPIRED, target.value, None)
    else if last.Some? && last.value + REMINDER_COOLDOWN_MS > now then
      Skip(RECENTLY_REMINDED, target.value, Some(last.value + REMINDER_COOLDOWN_MS))
    else Remind(target.value)
  }

  lemma {:induction false} AnsweredFound(group: seq<Candidate>)
    ensures FindAnswered(group).None? <==> forall c :: c in group ==> c.row.status == PENDING
  {
    if group != [] {
      AnsweredFound(group[1..]);
      assert group == [group[0]] + group[1..];
    }
  }

  /** `target` is an invite of the group that reached the guest no earlier than any other. */
  predicate ReachedLast(group: seq<Candidate>, target: Candidate) {
    && target in group && target.row.deliveredAt.Some?
    && (forall c :: c in group && c.row.deliveredAt.Some? ==> c.row.deliveredAt.value <= target.row.deliveredAt.value)
  }

  lemma {:induction false} LatestDeliveredReachedLast(group: seq<Candidate>)
    ensures LatestDelivered(group).None? <==> forall c :: c in group ==> c.row.deliveredAt.None?
    ensures LatestDelivered(group).Some? ==> ReachedLast(group, LatestDelivered(group).value)
  {
    if group != [] {
      LatestDeliveredReachedLast(group[..|group| - 1]);
      assert group == group[..|group| - 1] + [group[|group| - 1]];
    }
  }

  lemma {:induction false} LatestReminderIsLatest(group: seq<Candidate>)
    ensures forall c :: c in group && c.row.lastRemindedAt.Some? ==>
              LatestReminder(group).Some? && c.row.lastRemindedAt.value <= LatestReminder(group).value
    ensures LatestReminder(group).Some? ==> exists c :: c in group && c.row.lastRemindedAt == LatestReminder(group)
  {
    if group != [] {
      LatestReminderIsLatest(group[..|group| - 1]);
      assert group == group[..|group| - 1] + [group[|group| - 1]];
    }
  }

  /** The invite delivered last, the earlier in the list of two delivered at once. */
  predicate IsDeliveredLast(group: seq<Candidate>, k: int) {
    && 0 <= k < |group| && group[k].row.deliveredAt.Some?
    && (forall j :: 0 <= j < |group| && group[j].row.deliveredAt.Some? ==>
          && group[j].row.deliveredAt.value <= group[k].row.deliveredAt.value
          && (j < k ==> group[j].row.deliveredAt.value < group[k].row.deliveredAt.value))
  }

  /** The first answered invite. */
  predicate IsFirstAnswered(group: seq<Candidate>, k: int) {
    && 0 <= k < |group| && group[k].row.status != PENDING
    && forall j :: 0 <= j < k ==> group[j].row.status == PENDING
  }

  /** Some live invite was reminded less than 24 hours ago. */
  predicate WithinCooldown(group: seq<Candidate>, now: Time) {
    exists k :: 0 <= k < |group| && group[k].row.lastRemindedAt.Some? &&
      now < group[k].row.lastRemindedAt.value + 24 * HOUR_MS
  }

  predicate IsExpired(c: Candidate, now: Time) {
    c.row.expiresAt.Some? && c.row.expiresAt.value < now
  }

  lemma {:induction false} FoundAnsweredIsFirst(group: seq<Candidate>)
    ensures FindAnswered(group).Some? ==>
              exists k :: IsFirstAnswered(group, k) && FindAnswered(group) == Some(group[k])
    ensures FindAnswered(group).None? ==> forall k :: 0 <= k < |group| ==> group[k].row.status == PENDING
  {
    if group != [] && group[0].row.status != PENDING {
      assert IsFirstAnswered(group, 0);
    } else if group != [] {
      FoundAnsweredIsFirst(group[1..]);
      if FindAnswered(group[1..]).Some? {
        var k :| IsFirstAnswered(group[1..], k) && FindAnswered(group[1..]) == Some(group[1..][k]);
        assert IsFirstAnswered(group, k + 1);
      }
    }
  }

  lemma {:induction false} LatestDeliveredIsLast(group: seq<Candidate>)
    ensures LatestDelivered(group).Some? ==>
              exists k :: IsDeliveredLast(group, k) && LatestDelivered(group) == Some(group[k])
    ensures LatestDelivered(group).None? ==> forall k :: 0 <= k < |group| ==> group[k].row.deliveredAt.None?
  {
    if group != [] {
      var front, n := group[..|group| - 1], |group| - 1;
      LatestDeliveredIsLast(front);
      if LatestDelivered(front).Some? {
        var k :| IsDeliveredLast(front, k) && LatestDelivered(front) == Some(front[k]);
        assert LatestDelivered(group) == LatestDelivered(front) ==> IsDeliveredLast(group, k);
      }
      assert LatestDelivered(group) != LatestDelivered(front) ==> IsDeliveredLast(group, n);
    }
  }

  /** What is decided of a guest, and which invite and time are named: answered comes
      first, then never delivered, then expired, then within the cooldown. */
  ghost predicate IsVerdict(group: seq<Candidate>, now: Time, verdict: Verdict) {
    if exists k :: 0 <= k < |group| && group[k].row.status != PENDING then
      exists k :: IsFirstAnswered(group, k) && verdict == Skip(ALREADY_RESPONDED, group[k], None)
    else if forall k :: 0 <= k < |group| ==> group[k].row.deliveredAt.None? then
      group != [] && verdict == Skip(NOT_INVITED_YET, group[0], None)
    else
      exists k :: IsDeliveredLast(group, k) && IsVerdictOf(group, group[k], now, verdict)
  }

  /** What is decided of a guest still to answer, by the invite delivered last. */
  predicate IsVerdictOf(group: seq<Candidate>, last: Candidate, now: Time, verdict: Verdict) {
    if IsExpired(last, now) then verdict == Skip(INVITE_EXPIRED, last, None)
    else if WithinCooldown(group, now) then
      && verdict.Skip? && verdict.reason == RECENTLY_REMINDED && verdict.invite == last
      && verdict.nextEligibleAt.Some? && IsCooldownEnd(group, verdict.nextEligibleAt.value)
    else verdict == Remind(last)
  }

  /** 24 hours after the latest of the reminders. */
  predicate IsCooldownEnd(group: seq<Candidate>, t: Time) {
    && (exists k :: 0 <= k < |group| && group[k].row.lastRemindedAt == Some(t - 24 * HOUR_MS))
    && (forall k :: 0 <= k < |group| && group[k].row.lastRemindedAt.Some? ==>
        group[k].row.lastRemindedAt.value <= t - 24 * HOUR_MS)
  }

  lemma {:induction false} CooldownFromLatest(group: seq<Candidate>, now: Time)
    ensures WithinCooldown(group, now) <==>
              LatestReminder(group).Some? && now < LatestReminder(group).value + REMINDER_COOLDOWN_MS
    ensures LatestReminder(group).Some? ==> IsCooldownEnd(group, LatestReminder(group).value + REMINDER_COOLDOWN_MS)
  {
    LatestReminderIsLatest(group);
    if LatestReminder(group).Some? {
      var c :| c in group && c.row.lastRemindedAt == LatestReminder(group);
      var k :| 0 <= k < |group| && group[k] == c;
      assert group[k].row.lastRemindedAt == LatestReminder(group);
    }
  }

  /** The guest is due a reminder, and this is the invite it goes by: all are pending, it was
      delivered last, it has not expired, and none was reminded less than 24 hours ago. */
  predicate IsDue(group: seq<Candidate>, now: Time, k: int) {
    && (forall j :: 0 <= j < |group| ==> group[j].row.status == PENDING)
    && IsDeliveredLast(group, k) && !IsExpired(group[k], now) && !WithinCooldown(group, now)
  }

  lemma {:induction false} RemindedByExactly(group: seq<Candidate>, now: Time, c: Candidate)
    requires group != []
    ensures Classify(group, now) == Remind(c) <==> exists k :: IsDue(group, now, k) && c == group[k]
  {
    ClassifiedExactly(group, now);
    assert forall j, k :: IsDeliveredLast(group, j) && IsDeliveredLast(group, k) ==> j == k;
  }

  lemma {:induction false} ClassifiedExactly(group: seq<Candidate>, now: Time)
    requires group != []
    ensures IsVerdict(group, now, Classify(group, now))
  {
    FoundAnsweredIsFirst(group);
    LatestDeliveredIsLast(group);
    if FindAnswered(group).None? && LatestDelivered(group).Some? {
      var k :| IsDeliveredLast(group, k) && LatestDelivered(group) == Some(group[k]);
      CooldownFromLatest(group, now);
      assert IsVerdictOf(group, group[k], now, Classify(group, now));
    }
  }

  /** A guest is reminded exactly when none of their live invites is answered,
      one was delivered, the one delivered last has not expired, and none of
      them was reminded within the cooldown. */
  lemma {:induction false} RemindedExactlyWhenDue(group: seq<Candidate>, now: Time)
    requires group != []
    ensures var verdict := Classify(group, now);
            && (verdict.Remind? <==>
                  && (forall c :: c in group ==> c.row.status == PENDING)
                  && (exists c :: c in group && c.row.deliveredAt.Some?)
                  && (LatestDelivered(group).Some? && LatestDelivered(group).value.row.expiresAt.Some? ==>
                        LatestDelivered(group).value.row.expiresAt.value >= now)
                  && (forall c :: c in group && c.row.lastRemindedAt.Some? ==>
                      c.row.lastRemindedAt.value + REMINDER_COOLDOWN_MS <= now))
            && (verdict.Remind? ==>
                  && ReachedLast(group, verdict.target)
                  && Claimable(verdict.target.row.(isArchived := false), now - REMINDER_COOLDOWN_MS))
  {
    AnsweredFound(group);
    LatestDeliveredReachedLast(group);
    LatestReminderIsLatest(group);
  }

  /** The next eligible instant reported is the first at which the cooldown is over. */
  lemma {:induction false} NextEligibleIsExact(group: seq<Candidate>, now: Time, t: Time)
    requires group != [] && Classify(group, now).Skip? && Classify(group, now).reason == RECENTLY_REMINDED
    ensures var next := Classify(group, now).nextEligibleAt;
            && next.Some? && next.value > now
            && (t < next.value ==> !Classify(group, t).Remind?)
            && (t >= next.value ==>
                  || Classify(group, t).Remind?
                  || Classify(group, t) == Skip(INVITE_EXPIRED, Classify(group, now).invite, None))
  {
  }
}
