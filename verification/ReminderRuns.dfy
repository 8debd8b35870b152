/** Reminder requests racing one another over one invite: claims, sends and
    releases as steps of one history, and the day between two reminders.
    A bulk claim or release reads and writes each of its rows on that row's own
    account, so what it does to one invite is one step here. */
module ReminderRuns {
  import opened Prelude
  import opened ReminderRows

  type RequestId = nat

  /** Open until the guest is reached, or the claim given back. */
  datatype Outcome = Open | Sent | Released

  /** `previous` is the invite's lastRemindedAt as the request read it, before its claim. */
  datatype Claim = Claim(stamp: Time, previous: Option<Time>, outcome: Outcome)

  /** A request claims the invite at most once. */
  datatype State = State(now: Time, row: Invite, claims: map<RequestId, Claim>)

  datatype Step =
    | Tick(to: Time)
    | Change(row: Invite)
    | ClaimStep(request: RequestId, read: Option<Time>, stamp: Time)
    | SendStep(request: RequestId)
    | ReleaseStep(request: RequestId)

  predicate IsOpen(s: State, request: RequestId) {
    request in s.claims && s.claims[request].outcome == Open
  }

  /** Anything else may happen to an invite, but only a reminder writes lastRemindedAt. */
  predicate Enabled(s: State, step: Step) {
    match step
    case Tick(to) => to >= s.now
    case Change(row) => row.lastRemindedAt == s.row.lastRemindedAt
    case ClaimStep(request, _, stamp) => stamp <= s.now && request !in s.claims
    case SendStep(request) => IsOpen(s, request)
    case ReleaseStep(request) => IsOpen(s, request)
  }

  function Next(s: State, step: Step): State
    requires Enabled(s, step)
  {
    match step
    case Tick(to) => s.(now := to)
    case Change(row) => s.(row := row)
    case ClaimStep(request, read, stamp) =>
      if Claimable(s.row, stamp - REMINDER_COOLDOWN_MS) then
        s.(row := s.row.(lastRemindedAt := Some(stamp)), claims := s.claims[request := Claim(stamp, read, Open)])
      else s
    case SendStep(request) => s.(claims := s.claims[request := s.claims[request].(outcome := Sent)])
    case ReleaseStep(request) =>
      var c := s.claims[request];
      s.(row := if s.row.lastRemindedAt == Some(c.stamp) then s.row.(lastRemindedAt := c.previous) else s.row,
         claims := s.claims[request := c.(outcome := Released)])
  }

  /** A guest's answer, or anything else that happens to the invite, changes it and no claim;
      a send changes its claim and not the invite. */
  lemma {:induction false} ChangesAndSends(s: State, row: Invite, request: RequestId)
    ensures Enabled(s, Change(row)) ==> Next(s, Change(row)) == State(s.now, row, s.claims)
    ensures IsOpen(s, request) ==>
              var next := Next(s, SendStep(request));
              && next.row == s.row && next.claims.Keys == s.claims.Keys && next.claims[request].outcome == Sent
              && (forall r :: r in s.claims && r != request ==> next.claims[r] == s.claims[r])
  {
  }

  predicate Run(s: State, steps: seq<Step>)
    decreases |steps|
  {
    steps == [] || (Enabled(s, steps[0]) && Run(Next(s, steps[0]), steps[1..]))
  }

  function After(s: State, steps: seq<Step>): State
    requires Run(s, steps)
    decreases |steps|
  {
    if steps == [] then s else After(Next(s, steps[0]), steps[1..])
  }

  /** A bulk claim, seen from one invite. */
  lemma {:induction false} BulkClaimIsAStep(invites: Invites, ids: set<InviteId>, id: InviteId, s: State,
      request: RequestId, read: Option<Time>, stamp: Time)
    requires id in invites && s.row == invites[id] && Enabled(s, ClaimStep(request, read, stamp))
    ensures var after := ClaimReminders(invites, ids, stamp - REMINDER_COOLDOWN_MS, stamp);
            && after[id] == (if id in ids then Next(s, ClaimStep(request, read, stamp)).row else s.row)
            && (id in ids ==>
                  (id in Claimed(invites, ids, stamp - REMINDER_COOLDOWN_MS) <==>
                   request in Next(s, ClaimStep(request, read, stamp)).claims))
  {
  }

  /** A grouped release of a request's unreached invites, seen from one of them. */
  lemma {:induction false} BulkReleaseIsAStep(invites: Invites, releases: seq<Unreached>, n: nat, s: State,
      request: RequestId)
    requires DistinctIds(releases) && n < |releases| && releases[n].id in invites && s.row == invites[releases[n].id]
    requires IsOpen(s, request) && releases[n].previous == s.claims[request].previous
    ensures var after := ReleaseEach(invites, releases, s.claims[request].stamp);
            releases[n].id in after && after[releases[n].id] == Next(s, ReleaseStep(request)).row
  {
    ReleaseEachRow(invites, releases, s.claims[request].stamp, releases[n].id);
  }

  // ── A day apart ──

  predicate Stands(c: Claim) {
    c.outcome != Released
  }

  predicate Apart(a: Claim, b: Claim) {
    a.stamp + REMINDER_COOLDOWN_MS <= b.stamp || b.stamp + REMINDER_COOLDOWN_MS <= a.stamp
  }

  ghost predicate DayApart(s: State) {
    forall a, b :: a in s.claims && b in s.claims && a != b && Stands(s.claims[a]) && Stands(s.claims[b]) ==>
      Apart(s.claims[a], s.claims[b])
  }

  predicate AtLeast(last: Option<Time>, t: Time) {
    last.Some? && last.value >= t
  }

  /** A standing claim still holds the cooldown, or is a day old. */
  ghost predicate Held(s: State) {
    forall r :: r in s.claims && Stands(s.claims[r]) ==>
      && s.claims[r].stamp <= s.now
      && (AtLeast(s.row.lastRemindedAt, s.claims[r].stamp) || s.claims[r].stamp + REMINDER_COOLDOWN_MS <= s.now)
  }

  ghost predicate Inv(s: State) {
    DayApart(s) && Held(s)
  }

  /** Every claim is stamped with the time it is written. */
  predicate StampedOnWrite(s: State, steps: seq<Step>)
    requires Run(s, steps)
    decreases |steps|
  {
    steps == [] || ((steps[0].ClaimStep? ==> steps[0].stamp == s.now) && StampedOnWrite(Next(s, steps[0]), steps[1..]))
  }

  lemma {:induction false} StepKeepsInv(s: State, step: Step)
    requires Inv(s) && Enabled(s, step) && (step.ClaimStep? ==> step.stamp == s.now)
    ensures Inv(Next(s, step))
  {
    var t := Next(s, step);
    if step.ReleaseStep? {
      forall r | r in t.claims && Stands(t.claims[r])
        ensures AtLeast(t.row.lastRemindedAt, t.claims[r].stamp) || t.claims[r].stamp + REMINDER_COOLDOWN_MS <= t.now
      {
        assert Apart(s.claims[r], s.claims[step.request]);
      }
    }
  }

  lemma {:induction false} RunKeepsInv(s: State, steps: seq<Step>)
    requires Inv(s) && Run(s, steps) && StampedOnWrite(s, steps)
    ensures Inv(After(s, steps))
    decreases |steps|
  {
    if steps != [] {
      StepKeepsInv(s, steps[0]);
      RunKeepsInv(Next(s, steps[0]), steps[1..]);
    }
  }

  /** Two reminders that reached an invite's guest were claimed at least 24
      hours apart, whatever failed, was released, answered or archived between. */
  lemma {:induction false} RemindersAreADayApart(s: State, steps: seq<Step>, a: RequestId, b: RequestId)
    requires s.claims == map[] && Run(s, steps) && StampedOnWrite(s, steps)
    requires a in After(s, steps).claims && b in After(s, steps).claims && a != b
    requires After(s, steps).claims[a].outcome == Sent && After(s, steps).claims[b].outcome == Sent
    ensures Apart(After(s, steps).claims[a], After(s, steps).claims[b])
  {
    RunKeepsInv(s, steps);
  }

  /** A release puts the invite back only from its own mark, and never while another standing claim holds it. */
  lemma {:induction false} ReleaseUndoesOnlyItsOwn(s: State, request: RequestId, other: RequestId)
    requires Inv(s) && IsOpen(s, request)
    ensures var after := Next(s, ReleaseStep(request)).row;
            && after == s.row.(lastRemindedAt := after.lastRemindedAt)
            && (after != s.row ==>
                  && s.row.lastRemindedAt == Some(s.claims[request].stamp)
                  && after.lastRemindedAt == s.claims[request].previous)
            && (other != request && other in s.claims && Stands(s.claims[other]) &&
                s.row.lastRemindedAt == Some(s.claims[other].stamp)
                ==> after == s.row)
  {
    if other in s.claims && other != request && Stands(s.claims[other]) {
      assert Apart(s.claims[request], s.claims[other]);
    }
  }

  // ── A stamp older than its write ──

  /** What each claim's request read is what its claim replaced. */
  predicate FreshReads(s: State, steps: seq<Step>)
    requires Run(s, steps)
    decreases |steps|
  {
    steps == [] || ((steps[0].ClaimStep? ==> steps[0].read == s.row.lastRemindedAt) &&
                    FreshReads(Next(s, steps[0]), steps[1..]))
  }

  /** A standing claim holds the cooldown, and a later one knows of it. */
  ghost predicate FreshInv(s: State) {
    && DayApart(s)
    && (forall r :: r in s.claims && Stands(s.claims[r]) ==> AtLeast(s.row.lastRemindedAt, s.claims[r].stamp))
    && (forall a, b :: a in s.claims && b in s.claims && Stands(s.claims[a]) && Stands(s.claims[b]) ==>
          s.claims[a].stamp < s.claims[b].stamp ==> AtLeast(s.claims[b].previous, s.claims[a].stamp))
  }

  lemma {:induction false} StepKeepsFreshInv(s: State, step: Step)
    requires FreshInv(s) && Enabled(s, step) && (step.ClaimStep? ==> step.read == s.row.lastRemindedAt)
    ensures FreshInv(Next(s, step))
  {
    var t := Next(s, step);
    if step.ReleaseStep? {
      forall r | r in t.claims && Stands(t.claims[r]) ensures AtLeast(t.row.lastRemindedAt, t.claims[r].stamp) {
        assert Apart(s.claims[r], s.claims[step.request]);
      }
    }
  }

  lemma {:induction false} RunKeepsFreshInv(s: State, steps: seq<Step>)
    requires FreshInv(s) && Run(s, steps) && FreshReads(s, steps)
    ensures FreshInv(After(s, steps))
    decreases |steps|
  {
    if steps != [] {
      StepKeepsFreshInv(s, steps[0]);
      RunKeepsFreshInv(Next(s, steps[0]), steps[1..]);
    }
  }

  /** However long a claim's stamp waits for its write, a day apart still holds while no read is stale. */
  lemma {:induction false} LateWritesAreADayApart(s: State, steps: seq<Step>, a: RequestId, b: RequestId)
    requires s.claims == map[] && Run(s, steps) && FreshReads(s, steps)
    requires a in After(s, steps).claims && b in After(s, steps).claims && a != b
    requires After(s, steps).claims[a].outcome == Sent && After(s, steps).claims[b].outcome == Sent
    ensures Apart(After(s, steps).claims[a], After(s, steps).claims[b])
  {
    RunKeepsFreshInv(s, steps);
  }

  // ── Exactly what keeps two reminders a day apart ──

  /** The invite's mark is no older than any claim that stands. */
  ghost predicate MarkCovers(s: State) {
    forall r :: r in s.claims && Stands(s.claims[r]) ==> AtLeast(s.row.lastRemindedAt, s.claims[r].stamp)
  }

  /** The release finds another mark than its own, or what its request read covers every other claim that stands. */
  ghost predicate SafeRelease(s: State, request: RequestId)
    requires request in s.claims
  {
    || s.row.lastRemindedAt != Some(s.claims[request].stamp)
    || (forall r :: r in s.claims && r != request && Stands(s.claims[r]) ==>
        AtLeast(s.claims[request].previous, s.claims[r].stamp))
  }

  /** A release leaves the mark covering every claim that stands exactly when it is such a one. */
  lemma {:induction false} ReleaseKeepsMarkExactly(s: State, request: RequestId)
    requires IsOpen(s, request) && MarkCovers(s)
    ensures MarkCovers(Next(s, ReleaseStep(request))) <==> SafeRelease(s, request)
  {
    var t := Next(s, ReleaseStep(request));
    if MarkCovers(t) && s.row.lastRemindedAt == Some(s.claims[request].stamp) {
      forall r | r in s.claims && r != request && Stands(s.claims[r])
        ensures AtLeast(s.claims[request].previous, s.claims[r].stamp) {
        assert t.claims[r] == s.claims[r];
      }
    }
  }

  lemma {:induction false} OtherStepsKeepMark(s: State, step: Step)
    requires Enabled(s, step) && !step.ReleaseStep? && MarkCovers(s)
    ensures MarkCovers(Next(s, step))
  {
  }

  ghost predicate SafeReleases(s: State, steps: seq<Step>)
    requires Run(s, steps)
    decreases |steps|
  {
    steps == [] || ((steps[0].ReleaseStep? ==> SafeRelease(s, steps[0].request)) &&
                    SafeReleases(Next(s, steps[0]), steps[1..]))
  }

  /** At every moment of the run the mark covers every claim that stands. */
  ghost predicate CoversThroughout(s: State, steps: seq<Step>)
    requires Run(s, steps)
    decreases |steps|
  {
    MarkCovers(s) && (steps == [] || CoversThroughout(Next(s, steps[0]), steps[1..]))
  }

  lemma {:induction false} CoversThroughoutExactly(s: State, steps: seq<Step>)
    requires Run(s, steps) && MarkCovers(s)
    ensures CoversThroughout(s, steps) <==> SafeReleases(s, steps)
    decreases |steps|
  {
    if steps != [] {
      var t := Next(s, steps[0]);
      if steps[0].ReleaseStep? {
        ReleaseKeepsMarkExactly(s, steps[0].request);
      } else {
        OtherStepsKeepMark(s, steps[0]);
      }
      if MarkCovers(t) {
        CoversThroughoutExactly(t, steps[1..]);
      }
    }
  }

  /** A claim made some time from now, by any request, from any read and with any stamp not ahead of the clock. */
  ghost predicate ClaimKeepsApart(s: State, to: Time, request: RequestId, read: Option<Time>, stamp: Time) {
    to >= s.now && stamp <= to && request !in s.claims ==>
        DayApart(Next(s.(now := to), ClaimStep(request, read, stamp)))
  }

  ghost predicate ClaimsKeepApart(s: State) {
    forall to, request, read, stamp :: ClaimKeepsApart(s, to, request, read, stamp)
  }

  lemma {:induction false} ClaimLetThrough(s: State, request: RequestId, held: RequestId)
    requires !s.row.isArchived && s.row.status == PENDING && request !in s.claims
    requires held in s.claims && Stands(s.claims[held]) && !AtLeast(s.row.lastRemindedAt, s.claims[held].stamp)
    ensures !ClaimsKeepApart(s)
  {
    var c := s.claims[held].stamp;
    var stamp := if s.row.lastRemindedAt.None? then c else Max(c, s.row.lastRemindedAt.value + REMINDER_COOLDOWN_MS);
    var to := Max(s.now, stamp);
    var t := Next(s.(now := to), ClaimStep(request, None, stamp));
    assert t.claims[request] == Claim(stamp, None, Open) && t.claims[held] == s.claims[held];
    assert !Apart(t.claims[held], t.claims[request]);
    assert !ClaimKeepsApart(s, to, request, None, stamp);
  }

  /** While the invite can be reminded, every claim to come is a day from those that
      stand exactly when the mark covers them: the one way to harm is a release that uncovers one. */
  lemma {:induction false} NextClaimIsADayApartExactly(s: State, request: RequestId)
    requires !s.row.isArchived && s.row.status == PENDING && request !in s.claims && DayApart(s)
    ensures ClaimsKeepApart(s) <==> MarkCovers(s)
  {
    if MarkCovers(s) {
      forall to, r, read, stamp ensures ClaimKeepsApart(s, to, r, read, stamp) {
      }
    } else {
      var held :| held in s.claims && Stands(s.claims[held]) && !AtLeast(s.row.lastRemindedAt, s.claims[held].stamp);
      ClaimLetThrough(s, request, held);
    }
  }

  lemma {:induction false} StepKeepsApart(s: State, step: Step)
    requires Enabled(s, step) && MarkCovers(s) && DayApart(s)
    ensures DayApart(Next(s, step))
  {
  }

  /** However late stamps are written and however stale reads are: reminders are a
      day apart over any run whose every release is safe. */
  lemma {:induction false} SafeReleasesAreADayApart(s: State, steps: seq<Step>)
    requires MarkCovers(s) && DayApart(s) && Run(s, steps) && SafeReleases(s, steps)
    ensures DayApart(After(s, steps)) && MarkCovers(After(s, steps))
    decreases |steps|
  {
    if steps != [] {
      StepKeepsApart(s, steps[0]);
      if steps[0].ReleaseStep? {
        ReleaseKeepsMarkExactly(s, steps[0].request);
      } else {
        OtherStepsKeepMark(s, steps[0]);
      }
      SafeReleasesAreADayApart(Next(s, steps[0]), steps[1..]);
    }
  }

  lemma {:induction false} RunFirst(s: State, step: Step, rest: seq<Step>)
    requires Enabled(s, step) && Run(Next(s, step), rest)
    ensures Run(s, [step] + rest) && After(s, [step] + rest) == After(Next(s, step), rest)
  {
    assert ([step] + rest)[1..] == rest;
  }

  /** One request's read a day stale, and another's stamp nearly as old: the first
      gives back a mark it never replaced, and the second is let through with a
      stamp one hour after a reminder that was sent. */
  lemma {:induction false} StaleReadAndLateStamp(row: Invite) returns (s: State, steps: seq<Step>)
    requires !row.isArchived && row.status == PENDING && row.lastRemindedAt.None?
    ensures s.claims == map[] && Run(s, steps)
    ensures var claims := After(s, steps).claims;
            1 in claims && 3 in claims && claims[1] == Claim(0, None, Sent) && claims[3] == Claim(HOUR_MS, None, Sent)
  {
    var day := REMINDER_COOLDOWN_MS;
    s := State(0, row, map[]);
    var s1 := Next(s, ClaimStep(1, None, 0));
    var s2 := Next(s1, SendStep(1));
    var s3 := Next(s2, Tick(day));
    var s4 := Next(s3, ClaimStep(2, None, day));
    var s5 := Next(s4, ReleaseStep(2));
    var s6 := Next(s5, ClaimStep(3, None, HOUR_MS));
    steps := [];
    RunFirst(s6, SendStep(3), steps);
    steps := [SendStep(3)] + steps;
    RunFirst(s5, ClaimStep(3, None, HOUR_MS), steps);
    steps := [ClaimStep(3, None, HOUR_MS)] + steps;
    RunFirst(s4, ReleaseStep(2), steps);
    steps := [ReleaseStep(2)] + steps;
    RunFirst(s3, ClaimStep(2, None, day), steps);
    steps := [ClaimStep(2, None, day)] + steps;
    RunFirst(s2, Tick(day), steps);
    steps := [Tick(day)] + steps;
    RunFirst(s1, SendStep(1), steps);
    steps := [SendStep(1)] + steps;
    RunFirst(s, ClaimStep(1, None, 0), steps);
    steps := [ClaimStep(1, None, 0)] + steps;
  }
}
