/** Exactly which registrations change the guest list, what they write, and
    which refusal each other one gets. */
module RegistrationAnswers {
  import opened Prelude
  import opened Text
  import opened GuestRows
  import opened GuestWrites
  import opened Registration

  // ── Deadlines ──

  /** The last instant a deadline allows: its day's, when it names a day and no time of it. */
  function LastInstant(deadline: Time): Time {
    if deadline % DAY_MS == 0 || deadline % DAY_MS >= DAY_MS - 1000
    then (deadline / DAY_MS + 1) * DAY_MS - 1
    else deadline
  }

  predicate HasEnded(deadline: Option<Time>, now: Time) {
    deadline.Some? && LastInstant(deadline.value) < now
  }

  predicate EndsFirst(a: Option<Time>, b: Option<Time>) {
    a.Some? && (b.None? || LastInstant(a.value) < LastInstant(b.value))
  }

  lemma {:induction false} DeadlineEndIsLastInstant(deadline: Time)
    ensures DeadlineEnd(deadline) == LastInstant(deadline)
  {
    assert deadline == deadline / DAY_MS * DAY_MS + deadline % DAY_MS;
  }

  // ── Why a registration is refused ──

  /** Fewer than this many seats are left, by the cap on registrations or the ceiling on the event. */
  predicate NoRoomFor(rules: Rules, seats: Seats, partySize: nat) {
    || (rules.cap.Some? && rules.cap.value < seats.registeredSeats + partySize)
    || 5000 < seats.totalGuests + partySize
  }

  predicate NoRoomForOne(rules: Rules, seats: Seats) {
    NoRoomFor(rules, seats, 1) || (rules.guestLimit.Some? && rules.guestLimit.value < seats.primaryGuests + 1)
  }

  /** A party is refused for want of any seat, or for want of enough of them. */
  lemma {:induction false} PartyRefusedExactly(rules: Rules, seats: Seats, partySize: nat)
    ensures PartyRefused(rules, seats, partySize) ==
              if NoRoomForOne(rules, seats) then Some(NoRoomAtAll)
              else if NoRoomFor(rules, seats, partySize) then Some(PartyTooLarge) else None
  {
  }

  /** What would refuse this registration. */
  predicate IsCause(settings: Settings, seats: Seats, request: Request, now: Time, refusal: Refusal) {
    var rules := settings.rules;
    match refusal
    case Closed(EVENT_CANCELLED) => rules.status == CANCELLED
    case Closed(EVENT_FINISHED) => rules.status == COMPLETED
    case Closed(NOT_PUBLISHED) => rules.status == DRAFT
    case EmailDomain => !settings.domainAllowed(request.email)
    case DayNotOpen => request.dayIds.Some? && exists d :: d in request.dayIds.value && d !in settings.openDays
    case TooManyPlusOnes => settings.plusOnesAllowed < request.plusOnes
    case AnswersInvalid => !settings.answersOk
    case Closed(RSVP_DEADLINE_PASSED) =>
      HasEnded(rules.rsvpDeadline, now) && EndsFirst(rules.rsvpDeadline, rules.closesAt)
    case Closed(CLOSING_DATE_PASSED) =>
      HasEnded(rules.closesAt, now) && !EndsFirst(rules.rsvpDeadline, rules.closesAt)
    case Closed(NO_DAYS_OPEN) => !rules.anyDayOpen
    case Closed(FULL) => NoRoomForOne(rules, seats)
    case Party(PartyTooLarge) => NoRoomFor(rules, seats, 1 + request.plusOnes)
    case Party(NoRoomAtAll) => false
  }

  /** The order causes are looked for in. */
  function Turn(refusal: Refusal): nat {
    match refusal
    case Closed(EVENT_CANCELLED) => 0
    case Closed(EVENT_FINISHED) => 1
    case Closed(NOT_PUBLISHED) => 2
    case EmailDomain => 3
    case DayNotOpen => 4
    case TooManyPlusOnes => 5
    case AnswersInvalid => 6
    case Closed(RSVP_DEADLINE_PASSED) => 7
    case Closed(CLOSING_DATE_PASSED) => 8
    case Closed(NO_DAYS_OPEN) => 9
    case Closed(FULL) => 10
    case Party(PartyTooLarge) => 11
    case Party(NoRoomAtAll) => 12
  }

  ghost predicate IsFirstCause(settings: Settings, seats: Seats, request: Request, now: Time, refusal: Refusal) {
    && IsCause(settings, seats, request, now, refusal)
    && (forall other :: IsCause(settings, seats, request, now, other) ==> Turn(refusal) <= Turn(other))
  }

  /** The refusal the two checks come to. */
  function RefusedFor(settings: Settings, seats: Seats, request: Request, now: Time): Option<Refusal> {
    var upFront := RefusedUpFront(settings, request, now);
    if upFront.Some? then upFront else RefusedForSeats(settings.rules, seats, 1 + request.plusOnes, now)
  }

  lemma {:induction false} RefusedForFirstCause(settings: Settings, seats: Seats, request: Request, now: Time)
    ensures var refused := RefusedFor(settings, seats, request, now);
            if refused.Some? then IsFirstCause(settings, seats, request, now, refused.value)
            else forall r :: !IsCause(settings, seats, request, now, r)
  {
    var rules := settings.rules;
    if rules.rsvpDeadline.Some? {
      DeadlineEndIsLastInstant(rules.rsvpDeadline.value);
    }
    if rules.closesAt.Some? {
      DeadlineEndIsLastInstant(rules.closesAt.value);
    }
  }

  // ── Exactly which registrations are written ──

  /** Someone on the list, live, has this email, blanks around it and case aside. */
  ghost predicate IsListed(lower: string -> string, rows: Rows, raw: Email) {
    exists g :: g in rows.guests && !rows.guests[g].isArchived && rows.guests[g].email.Some?
      && lower(Trim(rows.guests[g].email.value)) == lower(Trim(raw))
  }

  lemma {:induction false} ListedExactly(lower: string -> string, rows: Rows, raw: Email)
    ensures IsListed(lower, rows, raw) <==> WithEmail(lower, rows, Normal(lower, raw)) != {}
  {
    if IsListed(lower, rows, raw) {
      var g :| g in rows.guests && !rows.guests[g].isArchived && rows.guests[g].email.Some?
        && lower(Trim(rows.guests[g].email.value)) == lower(Trim(raw));
      assert g in WithEmail(lower, rows, Normal(lower, raw));
    }
    if WithEmail(lower, rows, Normal(lower, raw)) != {} {
      var g :| g in WithEmail(lower, rows, Normal(lower, raw));
    }
  }

  /** The guest list with the registrant and their plus-ones added, each with an accepted invite. */
  ghost predicate IsPartyAdded(rows: Rows, after: Rows, party: seq<Member>, email: Email)
    requires party != []
  {
    after != rows && RowsAdded(rows, after, party, PartyGuests(party, email), ACCEPTED, |party|)
  }

  lemma {:induction false} WholePartyIsAdded(rows: Rows, party: seq<Member>, email: Email)
    requires FreshParty(rows, party) && party != []
    ensures IsPartyAdded(rows, WithParty(rows, party, email, |party|), party, email)
  {
    var after := WithParty(rows, party, email, |party|);
    PartyIsAdded(rows, party, email, |party|);
    AddedIsNew(rows, after, party, PartyGuests(party, email), ACCEPTED);
  }

  /** What a registration that nothing refuses comes to. */
  lemma {:induction false} UnrefusedAnswer(
    lower: string -> string, settings: Settings, rows: Rows, request: Request, raw: Email, now: Time,
    party: seq<Member>, first: Id, sendOk: bool)
    requires IsLower(lower) && request.email == Normal(lower, raw) && |party| == 1 + request.plusOnes
    requires RefusedFor(settings, CountSeats(rows), request, now).None?
    ensures Register(lower, settings, rows, request, now, party, first, sendOk) ==
              if IsListed(lower, rows, raw) then (rows, Registered(HasLiveInvite(rows, first) ==> sendOk))
              else (WithParty(rows, party, request.email, |party|), Registered(sendOk))
  {
    ListedExactly(lower, rows, raw);
    if !IsListed(lower, rows, raw) {
      IndexAgreesForNormalEmails(lower, rows, raw, party[0].guestId);
    }
  }

  lemma {:induction false} RefusedAnswer(
    lower: string -> string, settings: Settings, rows: Rows, request: Request, now: Time, party: seq<Member>,
    first: Id, sendOk: bool)
    requires |party| == 1 + request.plusOnes && RefusedFor(settings, CountSeats(rows), request, now).Some?
    ensures Register(lower, settings, rows, request, now, party, first, sendOk) ==
              (rows, Refused(RefusedFor(settings, CountSeats(rows), request, now).value))
  {
  }

  /** A registration is written exactly when nothing refuses it and no live guest has its
      email; then exactly its party is added. One refused says its first cause, listed
      or not; one taken by a listed guest says whether their link could be sent. */
  lemma {:induction false} RegisteredExactly(
    lower: string -> string, settings: Settings, rows: Rows, request: Request, raw: Email, now: Time,
    party: seq<Member>, first: Id, sendOk: bool)
    requires IsLower(lower) && request.email == Normal(lower, raw)
    requires FreshParty(rows, party) && |party| == 1 + request.plusOnes
    ensures var (after, reply) := Register(lower, settings, rows, request, now, party, first, sendOk);
            var seats := CountSeats(rows);
            var linkOpen := exists i ::
              i in rows.invites && rows.invites[i].guest == first && !rows.invites[i].isArchived;
            if exists r :: IsCause(settings, seats, request, now, r) then
              after == rows && reply.Refused? && IsFirstCause(settings, seats, request, now, reply.refusal)
            else if IsListed(lower, rows, raw) then after == rows && reply == Registered(linkOpen ==> sendOk)
            else IsPartyAdded(rows, after, party, request.email) && reply == Registered(sendOk)
  {
    RefusedForFirstCause(settings, CountSeats(rows), request, now);
    if RefusedFor(settings, CountSeats(rows), request, now).Some? {
      RefusedAnswer(lower, settings, rows, request, now, party, first, sendOk);
    } else {
      UnrefusedAnswer(lower, settings, rows, request, raw, now, party, first, sendOk);
      WholePartyIsAdded(rows, party, request.email);
    }
  }
}
