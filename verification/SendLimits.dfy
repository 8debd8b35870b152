/** The two daily limits of an event: invitation and reminder emails, and
    announcements. */
module SendLimits {
  import opened Prelude
  import opened RollingWindow

  const EVENT_EMAILS_PER_DAY: nat := 2000
  const ANNOUNCEMENTS_PER_EVENT_PER_DAY: nat := 5

  // ── Emails ──

  datatype EmailRefusal = DailyEmailLimit(wanted: int, remaining: nat)

  class EventEmailClaims {
    var claims: seq<Entry>

    constructor ()
      ensures claims == []
    {
      claims := [];
    }

    /** Under the event's row lock; `now` is the clock as read there. */
    method ClaimEventEmails(emailCount: int, now: Time) returns (refusal: Option<EmailRefusal>)
      modifies this
      ensures emailCount <= 0 ==> refusal.None? && claims == old(claims)
      ensures emailCount > 0 ==> claims == Claim(old(claims), EVENT_EMAILS_PER_DAY, emailCount, now)
      ensures refusal.Some? <==> emailCount > 0 && Used(old(claims), now) + emailCount > 2000
      ensures refusal.Some? ==>
                refusal.value == DailyEmailLimit(emailCount, Max(0, EVENT_EMAILS_PER_DAY - Used(old(claims), now))) &&
                    claims == old(claims)
    {
      if emailCount <= 0 {
        return None;
      }
      var recent := FindSince(claims, now - DAY_MS);
      var used := 0;
      for n := 0 to |recent|
        invariant used == Total(recent[..n])
      {
        assert recent[..n + 1][..n] == recent[..n];
        used := used + recent[n].count;
      }
      assert recent[..|recent|] == recent;
      var remaining := Max(0, EVENT_EMAILS_PER_DAY - used);
      if emailCount > remaining {
        return Some(DailyEmailLimit(emailCount, remaining));
      }
      claims := claims + [Entry(now, emailCount)];
      return None;
    }
  }

  // ── Announcements ──

  datatype Kind = ANNOUNCEMENT | CANCELLATION

  datatype Row = Row(kind: Kind, sentAt: Time)

  /** The organiser's own announcements: the cancellation email is not counted. */
  function Counted(rows: seq<Row>): seq<Entry> {
    if rows == [] then []
    else
      var last := rows[|rows| - 1];
      Counted(rows[..|rows| - 1]) + if last.kind == ANNOUNCEMENT then [Entry(last.sentAt, 1)] else []
  }

  datatype DailyLimit = DailyLimit(sentInWindow: nat, remaining: nat, nextAvailableAt: Option<Time>)

  function DailyLimitFrom(recent: seq<Entry>): DailyLimit {
    var remaining := Max(0, ANNOUNCEMENTS_PER_EVENT_PER_DAY - |recent|);
    DailyLimit(|recent|, remaining, if remaining == 0 then Some(recent[0].at + DAY_MS) else None)
  }

  /** Whether a send is let through at this instant. */
  predicate CanSend(log: seq<Entry>, now: Time) {
    |FindSince(log, now - DAY_MS)| < ANNOUNCEMENTS_PER_EVENT_PER_DAY
  }

  predicate Ones(log: seq<Entry>) {
    forall m :: 0 <= m < |log| ==> log[m].count == 1
  }

  lemma {:induction false} CountedAreOnes(rows: seq<Row>)
    ensures Ones(Counted(rows))
  {
    if rows != [] {
      CountedAreOnes(rows[..|rows| - 1]);
    }
  }

  lemma {:induction false} OnesAddUp(log: seq<Entry>)
    requires Ones(log)
    ensures Total(log) == |log|
  {
    if log != [] {
      OnesAddUp(log[..|log| - 1]);
    }
  }

  lemma {:induction false} RecentOnes(log: seq<Entry>, since: Time)
    requires Ones(log)
    ensures Ones(FindSince(log, since)) && Total(FindSince(log, since)) == |FindSince(log, since)|
  {
    if log != [] {
      RecentOnes(log[..|log| - 1], since);
    }
    OnesAddUp(FindSince(log, since));
  }

  /** Counting announcements is claiming one of the allowance. */
  lemma {:induction false} SendingIsClaimingOne(log: seq<Entry>, now: Time)
    requires Ones(log)
    ensures Claim(log, ANNOUNCEMENTS_PER_EVENT_PER_DAY, 1, now) == if CanSend(log, now) then log + [Entry(now, 1)]
                                                                   else log
  {
    RecentOnes(log, now - DAY_MS);
  }

  class EventAnnouncements {
    var cancelled: bool
    var rows: seq<Row>

    constructor ()
      ensures !cancelled && rows == []
    {
      cancelled, rows := false, [];
    }

    /** The claim of `send`, under the event's row lock. */
    method Send(now: Time) returns (sent: bool)
      modifies this`rows
      ensures sent <==> !cancelled && CanSend(Counted(old(rows)), now)
      ensures (cancelled, rows) == Next((cancelled, old(rows)), SendStep(now))
      ensures Counted(rows) == if cancelled then Counted(old(rows))
                               else Claim(Counted(old(rows)), ANNOUNCEMENTS_PER_EVENT_PER_DAY, 1, now)
    {
      CountedAreOnes(rows);
      SendingIsClaimingOne(Counted(rows), now);
      if cancelled {
        return false;
      }
      var recent := FindSince(Counted(rows), now - DAY_MS);
      if |recent| >= ANNOUNCEMENTS_PER_EVENT_PER_DAY {
        return false;
      }
      rows := rows + [Row(ANNOUNCEMENT, now)];
      assert rows[..|rows| - 1] == old(rows);
      return true;
    }

    /** Cancelling tells every invited guest, whatever was sent before. */
    method Cancel(now: Time, anyoneInvited: bool)
      modifies this
      ensures (cancelled, rows) == Next((old(cancelled), old(rows)), CancelStep(now, anyoneInvited))
      ensures Counted(rows) == Counted(old(rows))
    {
      cancelled := true;
      if anyoneInvited {
        rows := rows + [Row(CANCELLATION, now)];
        assert rows[..|rows| - 1] == old(rows);
      }
    }
  }

  /** With none remaining, a send is refused up to and including the instant
      shown, and let through at any later one if nothing else was sent. */
  lemma {:induction false} NextAvailableIsExact(log: seq<Entry>, now: Time, later: Time)
    requires InOrder(log) && AllBy(log, now) && Ones(log) && WithinLimit(log, ANNOUNCEMENTS_PER_EVENT_PER_DAY) &&
               now <= later
    requires DailyLimitFrom(FindSince(log, now - DAY_MS)).remaining == 0
    ensures var next := DailyLimitFrom(FindSince(log, now - DAY_MS)).nextAvailableAt;
            next.Some? && (CanSend(log, later) <==> later > next.value)
  {
    var recent := FindSince(log, now - DAY_MS);
    OldestLeavesFirst(log, now, later);
    RecentOnes(log, now - DAY_MS);
    UsedIsTheWindow(log, now);
  }

  /** A full email allowance stays full up to and including 24 hours after its
      oldest claim; from then on at least that claim's emails can go again. */
  lemma {:induction false} EmailRoomComesBack(log: seq<Entry>, now: Time, later: Time, emailCount: nat)
    requires InOrder(log) && AllBy(log, now) && now <= later && 0 < emailCount
    requires WithinLimit(log, EVENT_EMAILS_PER_DAY) && Used(log, now) == EVENT_EMAILS_PER_DAY
    ensures var oldest := FindSince(log, now - DAY_MS)[0];
            && (later <= oldest.at + DAY_MS ==> Claim(log, EVENT_EMAILS_PER_DAY, emailCount, later) == log)
            && (later > oldest.at + DAY_MS && emailCount <= oldest.count ==>
                  Claim(log, EVENT_EMAILS_PER_DAY, emailCount, later) == log + [Entry(later, emailCount)])
  {
    assert FindSince(log, now - DAY_MS) != [];
    OldestLeavesFirst(log, now, later);
  }

  // ── Whole histories ──

  /** From an event's first send on, no closed 24 hours hold over 2,000 claimed emails. */
  lemma {:induction false} EmailsNeverExceedTheLimit(attempts: seq<Attempt>, start: Time)
    requires InTime([], attempts)
    ensures InWindow(After([], EVENT_EMAILS_PER_DAY, attempts), start) <= 2000
  {
    EveryWindowIsWithinLimit([], EVENT_EMAILS_PER_DAY, attempts);
  }

  datatype Step = SendStep(now: Time) | CancelStep(now: Time, anyoneInvited: bool)

  /** What Send and Cancel do to an event's status and rows. */
  function Next(state: (bool, seq<Row>), step: Step): (bool, seq<Row>) {
    match step
    case SendStep(now) =>
      if !state.0 && CanSend(Counted(state.1), now) then (state.0, state.1 + [Row(ANNOUNCEMENT, now)]) else state
    case CancelStep(now, anyoneInvited) => (true, if anyoneInvited then state.1 + [Row(CANCELLATION, now)] else state.1)
  }

  function Steps(state: (bool, seq<Row>), steps: seq<Step>): (bool, seq<Row>)
    decreases |steps|
  {
    if steps == [] then state else Steps(Next(state, steps[0]), steps[1..])
  }

  predicate ClockRuns(now: Time, steps: seq<Step>)
    decreases |steps|
  {
    steps == [] || (now <= steps[0].now && ClockRuns(steps[0].now, steps[1..]))
  }

  ghost predicate Inv(rows: seq<Row>, now: Time) {
    AllBy(Counted(rows), now) && WithinLimit(Counted(rows), ANNOUNCEMENTS_PER_EVENT_PER_DAY)
  }

  lemma {:induction false} SendKeepsInv(rows: seq<Row>, at: Time, now: Time)
    requires Inv(rows, now) && now <= at && CanSend(Counted(rows), at)
    ensures Inv(rows + [Row(ANNOUNCEMENT, at)], at)
  {
    assert (rows + [Row(ANNOUNCEMENT, at)])[..|rows|] == rows;
    CountedAreOnes(rows);
    SendingIsClaimingOne(Counted(rows), at);
    ClaimKeepsLimit(Counted(rows), ANNOUNCEMENTS_PER_EVENT_PER_DAY, 1, at);
  }

  lemma {:induction false} CancellationIsNotCounted(rows: seq<Row>, at: Time)
    ensures Counted(rows + [Row(CANCELLATION, at)]) == Counted(rows)
  {
    assert (rows + [Row(CANCELLATION, at)])[..|rows|] == rows;
  }

  lemma {:induction false} StepKeepsInv(state: (bool, seq<Row>), step: Step, now: Time)
    requires Inv(state.1, now) && now <= step.now
    ensures Inv(Next(state, step).1, step.now)
    ensures state.0 ==> Next(state, step).0 && Counted(Next(state, step).1) == Counted(state.1)
  {
    if step.SendStep? {
      if !state.0 && CanSend(Counted(state.1), step.now) {
        SendKeepsInv(state.1, step.now, now);
      }
    } else {
      CancellationIsNotCounted(state.1, step.now);
    }
  }

  /** However sends and a cancellation race, no closed 24 hours hold over five of
      the organiser's announcements, and none goes out once the event is cancelled. */
  lemma {:induction false} AnnouncementsNeverExceedTheLimit(state: (bool, seq<Row>), steps: seq<Step>, now: Time,
      start: Time)
    requires Inv(state.1, now) && ClockRuns(now, steps)
    ensures InWindow(Counted(Steps(state, steps).1), start) <= 5
    ensures state.0 ==> Counted(Steps(state, steps).1) == Counted(state.1)
    decreases |steps|
  {
    if steps != [] {
      StepKeepsInv(state, steps[0], now);
      AnnouncementsNeverExceedTheLimit(Next(state, steps[0]), steps[1..], steps[0].now, start);
    }
  }

  // ── Exactly what is sent ──

  /** Announcements in the 24 hours that end now, both ends included. */
  ghost function SentInLastDay(rows: seq<Row>, now: Time): set<nat> {
    set n: nat | n < |rows| && rows[n].kind == ANNOUNCEMENT && now - DAY_MS <= rows[n].sentAt
  }

  lemma {:induction false} CountedSinceExactly(rows: seq<Row>, now: Time)
    ensures |FindSince(Counted(rows), now - DAY_MS)| == |SentInLastDay(rows, now)|
  {
    if rows == [] {
      assert SentInLastDay([], now) == {};
    } else {
      var front, last := rows[..|rows| - 1], rows[|rows| - 1];
      CountedSinceExactly(front, now);
      var before := SentInLastDay(front, now);
      assert SentInLastDay(rows, now) ==
          if last.kind == ANNOUNCEMENT && now - DAY_MS <= last.sentAt then before + {|front|} else before;
      if last.kind == ANNOUNCEMENT {
        var entries := Counted(front) + [Entry(last.sentAt, 1)];
        assert entries[..|entries| - 1] == Counted(front);
      } else {
        assert Counted(front) + [] == Counted(front);
      }
    }
  }

  /** An announcement goes out exactly when the event isn't cancelled and fewer than
      five went out in the last 24 hours, and is then the one row added; cancelling
      adds the cancellation's own when there is anyone to tell. */
  lemma {:induction false} SentExactly(state: (bool, seq<Row>), now: Time, anyoneInvited: bool)
    ensures Next(state, SendStep(now)) ==
              if !state.0 && |SentInLastDay(state.1, now)| < 5 then (false, state.1 + [Row(ANNOUNCEMENT, now)])
              else state
    ensures Next(state, CancelStep(now, anyoneInvited)).0
    ensures Next(state, CancelStep(now, anyoneInvited)).1 ==
              state.1 + if anyoneInvited then [Row(CANCELLATION, now)] else []
  {
    CountedSinceExactly(state.1, now);
  }

  lemma {:induction false} StepsOneMore(state: (bool, seq<Row>), steps: seq<Step>, last: Step)
    ensures Steps(state, []) == state && Steps(state, steps + [last]) == Next(Steps(state, steps), last)
    decreases |steps|
  {
    if steps == [] {
      assert ([] + [last])[1..] == [];
    } else {
      assert (steps + [last])[1..] == steps[1..] + [last];
      StepsOneMore(Next(state, steps[0]), steps[1..], last);
    }
  }

  /** What the organiser is told: how many went out, how many are left of five, and with
      none left the instant 24 hours after the oldest of them. */
  lemma {:induction false} ToldExactly(recent: seq<Entry>)
    requires |recent| <= 5
    ensures var told := DailyLimitFrom(recent);
            && told.sentInWindow == |recent| && told.sentInWindow + told.remaining == 5
            && (told.nextAvailableAt.Some? <==> |recent| == 5)
            && (|recent| == 5 ==> told.nextAvailableAt == Some(recent[0].at + DAY_MS))
  {
  }
}
