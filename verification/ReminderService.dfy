/** One "remind everyone" request: classify, claim, send, release, report. */
module ReminderService {
  import opened Prelude
  import opened ReminderRows

  /** Each guest's live invites. */
  type Groups = seq<seq<Candidate>>

  datatype Report = Report(totalSelected: nat, sent: nat, failed: nat, skipped: nat)

  datatype Refusal = NobodyToRemind(skipped: nat) | EmailLimitReached | SendingFailed

  predicate IsGroups(groups: Groups) {
    && (forall i :: 0 <= i < |groups| ==> groups[i] != [])
    && (forall i, j, c, d :: 0 <= i < j < |groups| && c in groups[i] && d in groups[j] ==> c.id != d.id)
  }

  /** With no selection, those who answered or were never invited are left out without a word. */
  predicate IsReported(verdict: Verdict, explicit: bool) {
    verdict.Skip? && (explicit || (verdict.reason != ALREADY_RESPONDED && verdict.reason != NOT_INVITED_YET))
  }

  function TargetOf(verdict: Verdict): seq<Candidate> {
    if verdict.Remind? then [verdict.target] else []
  }

  function Verdicts(groups: Groups, now: Time): seq<Verdict>
    requires forall i :: 0 <= i < |groups| ==> groups[i] != []
  {
    seq(|groups|, i requires 0 <= i < |groups| => Classify(groups[i], now))
  }

  /** The invites chosen among the first n guests. */
  function Targets(verdicts: seq<Verdict>, n: nat): seq<Candidate>
    requires n <= |verdicts|
  {
    if n == 0 then [] else Targets(verdicts, n - 1) + TargetOf(verdicts[n - 1])
  }

  function ReportedSkips(verdicts: seq<Verdict>, explicit: bool, n: nat): nat
    requires n <= |verdicts|
  {
    if n == 0 then 0 else ReportedSkips(verdicts, explicit, n - 1) + if IsReported(verdicts[n - 1], explicit) then 1
    else 0
  }

  function Chosen(groups: Groups, now: Time): seq<Candidate>
    requires forall i :: 0 <= i < |groups| ==> groups[i] != []
  {
    Targets(Verdicts(groups, now), |groups|)
  }

  function Ids(targets: seq<Candidate>): set<InviteId> {
    set c | c in targets :: c.id
  }

  predicate DistinctTargets(targets: seq<Candidate>) {
    forall m, n :: 0 <= m < n < |targets| ==> targets[m].id != targets[n].id
  }

  lemma {:induction false} TargetIsTheGuests(group: seq<Candidate>, now: Time)
    requires group != []
    ensures forall c :: c in TargetOf(Classify(group, now)) ==> c in group
  {
    LatestDeliveredReachedLast(group);
  }

  lemma {:induction false} TargetsAreDistinct(groups: Groups, now: Time, n: nat)
    requires IsGroups(groups) && n <= |groups|
    ensures DistinctTargets(Targets(Verdicts(groups, now), n))
    ensures forall c :: c in Targets(Verdicts(groups, now), n) ==> exists i :: 0 <= i < n && c in groups[i]
  {
    forall i | 0 <= i < |groups| ensures forall c :: c in TargetOf(Verdicts(groups, now)[i]) ==> c in groups[i] {
      TargetIsTheGuests(groups[i], now);
    }
    OwnTargets(groups, Verdicts(groups, now), n);
  }

  /** Each guest's target is one of their own invites, so no two are the same. */
  lemma {:induction false} OwnTargets(groups: Groups, verdicts: seq<Verdict>, n: nat)
    requires IsGroups(groups) && n <= |groups| == |verdicts|
    requires forall i :: 0 <= i < |groups| ==> forall c :: c in TargetOf(verdicts[i]) ==> c in groups[i]
    ensures DistinctTargets(Targets(verdicts, n))
    ensures forall c :: c in Targets(verdicts, n) ==> exists i :: 0 <= i < n && c in groups[i]
  {
    if n > 0 {
      OwnTargets(groups, verdicts, n - 1);
      Separate(Targets(verdicts, n - 1), TargetOf(verdicts[n - 1]), groups, n);
    }
  }

  lemma {:induction false} Separate(before: seq<Candidate>, chosen: seq<Candidate>, groups: Groups, n: nat)
    requires IsGroups(groups) && 0 < n <= |groups| && DistinctTargets(before) && |chosen| <= 1
    requires forall c :: c in before ==> exists i :: 0 <= i < n - 1 && c in groups[i]
    requires forall c :: c in chosen ==> c in groups[n - 1]
    ensures DistinctTargets(before + chosen)
  {
    forall m, c | 0 <= m < |before| && c in chosen ensures before[m].id != c.id {
      assert before[m] in before;
    }
  }

  /** The claims to give back: claimed, and not known to have been reached. */
  function ToRelease(targets: seq<Candidate>, claimed: set<InviteId>, reached: set<InviteId>, n: nat): seq<Unreached>
    requires n <= |targets|
  {
    if n == 0 then []
    else
      var c := targets[n - 1];
      ToRelease(targets, claimed, reached, n - 1)
      + if c.id in claimed && c.id !in reached then [Unreached(c.id, c.row.lastRemindedAt)] else []
  }

  lemma {:induction false} ToReleaseLists(targets: seq<Candidate>, claimed: set<InviteId>, reached: set<InviteId>,
      n: nat)
    requires DistinctTargets(targets) && n <= |targets|
    ensures DistinctIds(ToRelease(targets, claimed, reached, n))
    ensures forall r :: r in ToRelease(targets, claimed, reached, n) <==>
              exists m :: 0 <= m < n && targets[m].id in claimed && targets[m].id !in reached
                && r == Unreached(targets[m].id, targets[m].row.lastRemindedAt)
  {
    if n > 0 {
      var before := ToRelease(targets, claimed, reached, n - 1);
      ToReleaseLists(targets, claimed, reached, n - 1);
      forall m | 0 <= m < |before| ensures before[m].id != targets[n - 1].id {
        assert before[m] in before;
      }
    }
  }

  /** What the request leaves on each invite: claimed and reached, the mark;
      claimed and not reached, what the request had read; otherwise nothing new. */
  ghost predicate Marked(before: Invites, after: Invites, targets: seq<Candidate>, reached: set<InviteId>,
      claimedAt: Time) {
    && after.Keys == before.Keys
    && (forall id :: id in before && (forall m :: 0 <= m < |targets| ==> targets[m].id != id) ==>
        after[id] == before[id])
    && (forall m :: 0 <= m < |targets| && targets[m].id in before ==>
          var row := before[targets[m].id];
          after[targets[m].id] ==
          if !Claimable(row, claimedAt - REMINDER_COOLDOWN_MS) then row
          else row.(lastRemindedAt := if targets[m].id in reached then Some(claimedAt)
                    else targets[m].row.lastRemindedAt))
  }

  lemma {:induction false} ClaimThenRelease(before: Invites, targets: seq<Candidate>, ids: set<InviteId>,
      reached: set<InviteId>, claimedAt: Time)
    requires DistinctTargets(targets) && ids == Ids(targets)
    ensures var claimed := Claimed(before, ids, claimedAt - REMINDER_COOLDOWN_MS);
            var releases := ToRelease(targets, claimed, reached, |targets|);
            && DistinctIds(releases)
            && Marked(before, ReleaseEach(ClaimReminders(before, ids, claimedAt - REMINDER_COOLDOWN_MS, claimedAt),
                                          releases, claimedAt),
                      targets, reached, claimedAt)
  {
    var claimed := Claimed(before, ids, claimedAt - REMINDER_COOLDOWN_MS);
    var marked := ClaimReminders(before, ids, claimedAt - REMINDER_COOLDOWN_MS, claimedAt);
    var releases := ToRelease(targets, claimed, reached, |targets|);
    ToReleaseLists(targets, claimed, reached, |targets|);
    ReleaseEachRow(marked, releases, claimedAt, "");
    forall id | id in before && (forall m :: 0 <= m < |targets| ==> targets[m].id != id)
      ensures ReleaseEach(marked, releases, claimedAt)[id] == before[id]
    {
      ReleaseEachRow(marked, releases, claimedAt, id);
      forall m | 0 <= m < |releases| ensures releases[m].id != id {
        assert releases[m] in releases;
      }
    }
    forall m | 0 <= m < |targets| && targets[m].id in before
      ensures var row := before[targets[m].id];
              ReleaseEach(marked, releases, claimedAt)[targets[m].id] ==
              if !Claimable(row, claimedAt - REMINDER_COOLDOWN_MS) then row
              else row.(lastRemindedAt := if targets[m].id in reached then Some(claimedAt)
                        else targets[m].row.lastRemindedAt)
    {
      OneMark(before, targets, ids, reached, claimedAt, m);
    }
  }

  lemma {:induction false} OneMark(before: Invites, targets: seq<Candidate>, ids: set<InviteId>, reached: set<InviteId>,
      claimedAt: Time, m: nat)
    requires DistinctTargets(targets) && ids == Ids(targets)
    requires m < |targets| && targets[m].id in before
    ensures var claimed := Claimed(before, ids, claimedAt - REMINDER_COOLDOWN_MS);
            var releases := ToRelease(targets, claimed, reached, |targets|);
            var after := ReleaseEach(ClaimReminders(before, ids, claimedAt - REMINDER_COOLDOWN_MS, claimedAt), releases,
                                     claimedAt);
            var row := before[targets[m].id];
            && targets[m].id in after
            && after[targets[m].id] ==
               if !Claimable(row, claimedAt - REMINDER_COOLDOWN_MS) then row
               else row.(lastRemindedAt := if targets[m].id in reached then Some(claimedAt)
                         else targets[m].row.lastRemindedAt)
  {
    var claimed := Claimed(before, ids, claimedAt - REMINDER_COOLDOWN_MS);
    var releases := ToRelease(targets, claimed, reached, |targets|);
    var id := targets[m].id;
    ToReleaseLists(targets, claimed, reached, |targets|);
    ReleaseEachRow(ClaimReminders(before, ids, claimedAt - REMINDER_COOLDOWN_MS, claimedAt), releases, claimedAt, id);
    assert targets[m] in targets;
    if id in claimed && id !in reached {
      assert Unreached(id, targets[m].row.lastRemindedAt) in releases;
    } else {
      forall k | 0 <= k < |releases| ensures releases[k].id != id {
        assert releases[k] in releases;
      }
    }
  }

  // ── Counting guests ──

  /** A guest who has answered nothing yet and was sent an invitation. */
  predicate IsWaiting(group: seq<Candidate>) {
    && (forall k :: 0 <= k < |group| ==> group[k].row.status == PENDING)
    && (exists k :: 0 <= k < |group| && group[k].row.deliveredAt.Some?)
  }

  /** The guests a request concerns: those picked, or everyone waiting. */
  ghost function Selected(groups: Groups, explicit: bool): set<nat> {
    set i: nat | i < |groups| && (explicit || IsWaiting(groups[i]))
  }

  ghost predicate IsDueBy(group: seq<Candidate>, now: Time, ids: set<InviteId>) {
    exists k :: IsDue(group, now, k) && group[k].id in ids
  }

  /** The guests due a reminder by one of these invites. */
  ghost function DueBy(groups: Groups, now: Time, ids: set<InviteId>): set<nat> {
    set i: nat | i < |groups| && IsDueBy(groups[i], now, ids)
  }

  ghost function AmongTargets(targets: seq<Candidate>, ids: set<InviteId>): set<nat> {
    set m: nat | m < |targets| && targets[m].id in ids
  }

  predicate IsChosenBy(verdict: Verdict, ids: set<InviteId>) {
    verdict.Remind? && verdict.target.id in ids
  }

  ghost function ChosenBy(verdicts: seq<Verdict>, ids: set<InviteId>, n: nat): set<nat>
    requires n <= |verdicts|
  {
    set i: nat | i < n && IsChosenBy(verdicts[i], ids)
  }

  ghost function Concerned(verdicts: seq<Verdict>, explicit: bool, n: nat): set<nat>
    requires n <= |verdicts|
  {
    set i: nat | i < n && (verdicts[i].Remind? || IsReported(verdicts[i], explicit))
  }

  lemma {:induction false} AmongOneMore(targets: seq<Candidate>, verdict: Verdict, ids: set<InviteId>)
    ensures |AmongTargets(targets + TargetOf(verdict), ids)| ==
              |AmongTargets(targets, ids)| + if IsChosenBy(verdict, ids) then 1 else 0
  {
    var before, after := AmongTargets(targets, ids), AmongTargets(targets + TargetOf(verdict), ids);
    assert after == if IsChosenBy(verdict, ids) then before + {|targets|} else before;
  }

  lemma {:induction false} CountTargets(verdicts: seq<Verdict>, ids: set<InviteId>, n: nat)
    requires n <= |verdicts|
    ensures |AmongTargets(Targets(verdicts, n), ids)| == |ChosenBy(verdicts, ids, n)|
  {
    if n == 0 {
      assert AmongTargets([], ids) == {} == ChosenBy(verdicts, ids, 0);
    } else {
      var before := ChosenBy(verdicts, ids, n - 1);
      CountTargets(verdicts, ids, n - 1);
      AmongOneMore(Targets(verdicts, n - 1), verdicts[n - 1], ids);
      assert ChosenBy(verdicts, ids, n) == if IsChosenBy(verdicts[n - 1], ids) then before + {n - 1} else before;
    }
  }

  lemma {:induction false} ReportedNext(verdicts: seq<Verdict>, explicit: bool, n: nat)
    requires n < |verdicts|
    ensures |Targets(verdicts, n + 1)| + ReportedSkips(verdicts, explicit, n + 1)
            == |Targets(verdicts, n)| + ReportedSkips(verdicts, explicit, n)
                + if verdicts[n].Remind? || IsReported(verdicts[n], explicit) then 1 else 0
  {
  }

  lemma {:induction false} ConcernedNext(verdicts: seq<Verdict>, explicit: bool, n: nat)
    requires n < |verdicts|
    ensures |Concerned(verdicts, explicit, n + 1)| == |Concerned(verdicts, explicit, n)|
                + if verdicts[n].Remind? || IsReported(verdicts[n], explicit) then 1 else 0
  {
    var before := Concerned(verdicts, explicit, n);
    assert Concerned(verdicts, explicit, n + 1) ==
        if verdicts[n].Remind? || IsReported(verdicts[n], explicit) then before + {n} else before;
  }

  lemma {:induction false} CountConcerned(verdicts: seq<Verdict>, explicit: bool, n: nat)
    requires n <= |verdicts|
    ensures |Targets(verdicts, n)| + ReportedSkips(verdicts, explicit, n) == |Concerned(verdicts, explicit, n)|
  {
    if n == 0 {
      assert Concerned(verdicts, explicit, 0) == {};
    } else {
      CountConcerned(verdicts, explicit, n - 1);
      ConcernedNext(verdicts, explicit, n - 1);
      ReportedNext(verdicts, explicit, n - 1);
    }
  }

  lemma {:induction false} ConcernedExactly(group: seq<Candidate>, now: Time, explicit: bool)
    requires group != []
    ensures Classify(group, now).Remind? || IsReported(Classify(group, now), explicit) <==> explicit || IsWaiting(group)
  {
    ClassifiedExactly(group, now);
  }

  lemma {:induction false} ChosenWhenDue(group: seq<Candidate>, now: Time, ids: set<InviteId>)
    requires group != []
    ensures IsDueBy(group, now, ids) <==> IsChosenBy(Classify(group, now), ids)
  {
    var verdict := Classify(group, now);
    if verdict.Remind? {
      RemindedByExactly(group, now, verdict.target);
    }
    forall k | IsDue(group, now, k) ensures verdict == Remind(group[k]) {
      RemindedByExactly(group, now, group[k]);
    }
  }

  /** Everyone concerned is reminded or reported. */
  lemma {:induction false} SelectedAreReported(groups: Groups, now: Time, explicit: bool)
    requires forall i :: 0 <= i < |groups| ==> groups[i] != []
    ensures |Chosen(groups, now)| + ReportedSkips(Verdicts(groups, now), explicit, |groups|)
            == |Selected(groups, explicit)|
  {
    var verdicts := Verdicts(groups, now);
    CountConcerned(verdicts, explicit, |groups|);
    forall i: nat | i < |groups|
      ensures i in Concerned(verdicts, explicit, |groups|) <==> i in Selected(groups, explicit)
    {
      ConcernedExactly(groups[i], now, explicit);
    }
    assert Concerned(verdicts, explicit, |groups|) == Selected(groups, explicit);
  }

  /** With a selection everyone in it is concerned. */
  lemma {:induction false} AllSelected(groups: Groups)
    ensures |Selected(groups, true)| == |groups|
  {
    BelowCount(Selected(groups, true), |groups|);
  }

  lemma {:induction false} BelowCount(s: set<nat>, n: nat)
    requires forall i: nat :: i in s <==> i < n
    ensures |s| == n
  {
    if n > 0 {
      BelowCount(s - {n - 1}, n - 1);
    } else {
      assert s == {};
    }
  }

  /** As many targets as guests due, among whichever invites. */
  lemma {:induction false} TargetsAreDue(groups: Groups, now: Time, ids: set<InviteId>)
    requires forall i :: 0 <= i < |groups| ==> groups[i] != []
    ensures |AmongTargets(Chosen(groups, now), ids)| == |DueBy(groups, now, ids)|
  {
    var verdicts := Verdicts(groups, now);
    CountTargets(verdicts, ids, |groups|);
    forall i: nat | i < |groups| ensures i in ChosenBy(verdicts, ids, |groups|) <==> i in DueBy(groups, now, ids) {
      ChosenWhenDue(groups[i], now, ids);
    }
    assert ChosenBy(verdicts, ids, |groups|) == DueBy(groups, now, ids);
  }

  /** The loop over the guests' verdicts. */
  method SortVerdicts(verdicts: seq<Verdict>, explicit: bool) returns (toRemind: seq<Candidate>, skipped: nat)
    ensures toRemind == Targets(verdicts, |verdicts|) && skipped == ReportedSkips(verdicts, explicit, |verdicts|)
  {
    toRemind, skipped := [], 0;
    for n := 0 to |verdicts|
      invariant toRemind == Targets(verdicts, n)
      invariant skipped == ReportedSkips(verdicts, explicit, n)
    {
      if verdicts[n].Remind? {
        toRemind := toRemind + [verdicts[n].target];
      } else if IsReported(verdicts[n], explicit) {
        skipped := skipped + 1;
      }
    }
  }

  /** Which of the first n were claimed and are among `these`. */
  function Counted(targets: seq<Candidate>, claimed: set<InviteId>, these: set<InviteId>, n: nat): set<nat>
    requires n <= |targets|
  {
    set m: nat | m < n && targets[m].id in claimed && targets[m].id in these
  }

  lemma {:induction false} CountedNext(targets: seq<Candidate>, claimed: set<InviteId>, these: set<InviteId>, n: nat)
    requires n < |targets|
    ensures |Counted(targets, claimed, these, n + 1)|
            == |Counted(targets, claimed, these, n)| + if targets[n].id in claimed && targets[n].id in these then 1
                                                       else 0
    ensures targets[n].id in Ids(targets)
  {
    assert targets[n] in targets;
    var before := Counted(targets, claimed, these, n);
    assert Counted(targets, claimed, these, n + 1)
           == if targets[n].id in claimed && targets[n].id in these then before + {n} else before;
  }

  /** How many of the chosen invites each outcome befell. */
  method CountOutcomes(toRemind: seq<Candidate>, claimed: set<InviteId>, reached: set<InviteId>)
    returns (sent: nat, failed: nat, changed: nat)
    ensures sent == |Counted(toRemind, claimed, reached, |toRemind|)|
    ensures failed == |Counted(toRemind, claimed, Ids(toRemind) - reached, |toRemind|)|
    ensures sent + failed + changed == |toRemind|
  {
    sent, failed, changed := 0, 0, 0;
    for n := 0 to |toRemind|
      invariant sent + failed + changed == n
      invariant sent == |Counted(toRemind, claimed, reached, n)|
      invariant failed == |Counted(toRemind, claimed, Ids(toRemind) - reached, n)|
    {
      CountedNext(toRemind, claimed, reached, n);
      CountedNext(toRemind, claimed, Ids(toRemind) - reached, n);
      if toRemind[n].id !in claimed {
        changed := changed + 1;
      } else if toRemind[n].id in reached {
        sent := sent + 1;
      } else {
        failed := failed + 1;
      }
    }
  }

  // ── What a request leaves, said of the guests themselves ──

  /** The invites a claim made then would get: live, pending and not reminded less than 24 hours before. */
  function OpenTo(invites: Invites, claimedAt: Time): set<InviteId> {
    set id | id in invites && !invites[id].isArchived && invites[id].status == PENDING
             && (invites[id].lastRemindedAt.None? || invites[id].lastRemindedAt.value + 24 * HOUR_MS <= claimedAt)
  }

  lemma {:induction false} CountedAreDue(
    groups: Groups, now: Time, invites: Invites, reached: set<InviteId>, claimedAt: Time)
    requires IsGroups(groups)
    ensures var targets, open := Chosen(groups, now), OpenTo(invites, claimedAt);
            var claimed := Claimed(invites, Ids(targets), claimedAt - REMINDER_COOLDOWN_MS);
            && |Counted(targets, claimed, reached, |targets|)| == |DueBy(groups, now, open * reached)|
            && |Counted(targets, claimed, Ids(targets) - reached, |targets|)| == |DueBy(groups, now, open - reached)|
  {
    var targets, open := Chosen(groups, now), OpenTo(invites, claimedAt);
    var claimed := Claimed(invites, Ids(targets), claimedAt - REMINDER_COOLDOWN_MS);
    forall m | 0 <= m < |targets| ensures targets[m].id in Ids(targets) {
      assert targets[m] in targets;
    }
    assert Counted(targets, claimed, reached, |targets|) == AmongTargets(targets, open * reached);
    assert Counted(targets, claimed, Ids(targets) - reached, |targets|) == AmongTargets(targets, open - reached);
    TargetsAreDue(groups, now, open * reached);
    TargetsAreDue(groups, now, open - reached);
  }

  lemma {:induction false} TargetsList(verdicts: seq<Verdict>, n: nat, c: Candidate)
    requires n <= |verdicts|
    ensures c in Targets(verdicts, n) <==> exists i :: 0 <= i < n && verdicts[i] == Remind(c)
  {
    if n > 0 {
      TargetsList(verdicts, n - 1, c);
    }
  }

  lemma {:induction false} ChosenAreDue(groups: Groups, now: Time, c: Candidate)
    requires forall i :: 0 <= i < |groups| ==> groups[i] != []
    ensures c in Chosen(groups, now) <==> exists i :: 0 <= i < |groups| && IsDueWith(groups[i], now, c)
  {
    var verdicts := Verdicts(groups, now);
    TargetsList(verdicts, |groups|, c);
    forall i | 0 <= i < |groups| ensures verdicts[i] == Remind(c) <==> IsDueWith(groups[i], now, c) {
      RemindedByExactly(groups[i], now, c);
    }
  }

  /** The guest is due a reminder by this invite. */
  ghost predicate IsDueWith(group: seq<Candidate>, now: Time, c: Candidate) {
    exists k :: IsDue(group, now, k) && c == group[k]
  }

  ghost predicate SomeoneIsDue(groups: Groups, now: Time) {
    exists i, c :: 0 <= i < |groups| && IsDueWith(groups[i], now, c)
  }

  lemma {:induction false} SomeoneIsChosen(groups: Groups, now: Time)
    requires forall i :: 0 <= i < |groups| ==> groups[i] != []
    ensures SomeoneIsDue(groups, now) <==> Chosen(groups, now) != []
  {
    if Chosen(groups, now) != [] {
      ChosenAreDue(groups, now, Chosen(groups, now)[0]);
      assert SomeoneIsDue(groups, now);
    }
    forall i, c | 0 <= i < |groups| && IsDueWith(groups[i], now, c) ensures Chosen(groups, now) != [] {
      ChosenAreDue(groups, now, c);
    }
  }

  /** Who ends marked: the invite each guest due was to be reminded by, while it was
      open to the claim, keeps the claim's mark when they were reached, and what was
      read of it otherwise; no other invite changes. */
  ghost predicate MarkedWhereDue(before: Invites, after: Invites, groups: Groups, now: Time, reached: set<InviteId>,
      claimedAt: Time) {
    && after.Keys == before.Keys
    && (forall i, c :: 0 <= i < |groups| && IsDueWith(groups[i], now, c) && c.id in before ==>
          after[c.id] == if c.id !in OpenTo(before, claimedAt) then before[c.id]
                         else before[c.id].(lastRemindedAt :=
                           if c.id in reached then Some(claimedAt) else c.row.lastRemindedAt))
    && (forall id ::
          id in before && (forall i, c :: 0 <= i < |groups| && IsDueWith(groups[i], now, c) ==> c.id != id) ==>
          after[id] == before[id])
  }

  lemma {:induction false} MarkOfDue(before: Invites, after: Invites, groups: Groups, now: Time,
      reached: set<InviteId>, claimedAt: Time, i: nat, c: Candidate)
    requires forall i :: 0 <= i < |groups| ==> groups[i] != []
    requires Marked(before, after, Chosen(groups, now), reached, claimedAt)
    requires i < |groups| && IsDueWith(groups[i], now, c) && c.id in before
    ensures after[c.id] == if c.id !in OpenTo(before, claimedAt) then before[c.id]
                           else before[c.id].(lastRemindedAt :=
                             if c.id in reached then Some(claimedAt) else c.row.lastRemindedAt)
  {
    ChosenAreDue(groups, now, c);
    var targets := Chosen(groups, now);
    var m :| 0 <= m < |targets| && targets[m] == c;
  }

  lemma {:induction false} NotDueIsNotMarked(before: Invites, after: Invites, groups: Groups, now: Time,
      reached: set<InviteId>, claimedAt: Time, id: InviteId)
    requires forall i :: 0 <= i < |groups| ==> groups[i] != []
    requires Marked(before, after, Chosen(groups, now), reached, claimedAt) && id in before
    requires forall i, c :: 0 <= i < |groups| && IsDueWith(groups[i], now, c) ==> c.id != id
    ensures after[id] == before[id]
  {
    var targets := Chosen(groups, now);
    forall m | 0 <= m < |targets| ensures targets[m].id != id {
      ChosenAreDue(groups, now, targets[m]);
    }
  }

  lemma {:induction false} MarkedAreDue(before: Invites, after: Invites, groups: Groups, now: Time,
      reached: set<InviteId>, claimedAt: Time)
    requires forall i :: 0 <= i < |groups| ==> groups[i] != []
    requires Marked(before, after, Chosen(groups, now), reached, claimedAt)
    ensures MarkedWhereDue(before, after, groups, now, reached, claimedAt)
  {
    forall i, c | 0 <= i < |groups| && IsDueWith(groups[i], now, c) && c.id in before
      ensures after[c.id] == if c.id !in OpenTo(before, claimedAt) then before[c.id]
                             else before[c.id].(lastRemindedAt :=
                               if c.id in reached then Some(claimedAt) else c.row.lastRemindedAt)
    {
      MarkOfDue(before, after, groups, now, reached, claimedAt, i, c);
    }
    forall id | id in before && (forall i, c :: 0 <= i < |groups| && IsDueWith(groups[i], now, c) ==> c.id != id)
      ensures after[id] == before[id]
    {
      NotDueIsNotMarked(before, after, groups, now, reached, claimedAt, id);
    }
  }

  /** `limitAllows` is the daily email limit's answer to the claimed round,
      `reached` the guests the sends are known to have reached, and `threw`
      whether sending stopped with an error. */
  method RemindBulk(repo: InviteRepository, groups: Groups, explicit: bool, now: Time, claimedAt: Time,
                    limitAllows: bool, reached: set<InviteId>, threw: bool)
    returns (r: Result<Report, Refusal>)
    requires IsGroups(groups)
    modifies repo
    ensures r.Ok? <==> SomeoneIsDue(groups, now) && limitAllows && !threw
    ensures r.Err? && r.error.NobodyToRemind? <==> !SomeoneIsDue(groups, now)
    ensures r.Err? && r.error.EmailLimitReached? <==> SomeoneIsDue(groups, now) && !limitAllows
    ensures r.Ok? ==> r.value.totalSelected == if explicit then |groups| else |Selected(groups, false)|
    ensures r.Ok? ==> r.value.sent + r.value.failed + r.value.skipped == r.value.totalSelected
    ensures r.Ok? ==>
              var open := OpenTo(old(repo.invites), claimedAt);
              && r.value.sent == |DueBy(groups, now, open * reached)|
              && r.value.failed == |DueBy(groups, now, open - reached)|
    ensures r.Err? && r.error.NobodyToRemind? ==>
              && r.error.skipped == (if explicit then |groups| else |Selected(groups, false)|)
              && repo.invites == old(repo.invites)
    ensures r.Err? && r.error.EmailLimitReached? ==>
              MarkedWhereDue(old(repo.invites), repo.invites, groups, now, {}, claimedAt)
    ensures r.Ok? || r.error.SendingFailed? ==>
              MarkedWhereDue(old(repo.invites), repo.invites, groups, now, reached, claimedAt)
  {
    SomeoneIsChosen(groups, now);
    SelectedAreReported(groups, now, explicit);
    AllSelected(groups);
    var toRemind, skipped := SortVerdicts(Verdicts(groups, now), explicit);
    if toRemind == [] {
      return Err(NobodyToRemind(skipped));
    }
    TargetsAreDistinct(groups, now, |groups|);
    var ids := Ids(toRemind);
    var claimed := repo.Claim(ids, claimedAt - REMINDER_COOLDOWN_MS, claimedAt);
    var known := if limitAllows then reached else {};
    ClaimThenRelease(old(repo.invites), toRemind, ids, known, claimedAt);
    var releases := ToRelease(toRemind, claimed, known, |toRemind|);
    repo.Release(releases, claimedAt);
    MarkedAreDue(old(repo.invites), repo.invites, groups, now, known, claimedAt);
    if !limitAllows {
      return Err(EmailLimitReached);
    }
    if threw {
      return Err(SendingFailed);
    }
    CountedAreDue(groups, now, old(repo.invites), reached, claimedAt);
    var sent, failed, changed := CountOutcomes(toRemind, claimed, reached);
    return Ok(Report(|toRemind| + skipped, sent, failed, skipped + changed));
  }
}
