/** Public self-registration: when it is open, whether a party fits, and the
    one answer a registrant gets whether or not their email is already listed. */
module Registration {
  import opened Prelude
  import opened Text
  import opened GuestRows

  // ── Deadlines ──

  /** Midnight, or the last second of a day: a date with no time of its own. */
  predicate IsDateOnly(t: Time) {
    t % DAY_MS == 0 || t % DAY_MS / 1000 == 24 * 60 * 60 - 1
  }

  function EndOfDayUtc(t: Time): Time {
    t - t % DAY_MS + DAY_MS - 1
  }

  function DeadlineEnd(deadline: Time): Time {
    if IsDateOnly(deadline) then EndOfDayUtc(deadline) else deadline
  }

  /** A deadline closes on its own day, no earlier than it says; a date-only one at the day's last instant. */
  lemma {:induction false} DeadlineEndsOnItsDay(deadline: Time)
    ensures deadline <= DeadlineEnd(deadline) && DeadlineEnd(deadline) / DAY_MS == deadline / DAY_MS
    ensures IsDateOnly(deadline) ==> DeadlineEnd(deadline) % DAY_MS == DAY_MS - 1
    ensures DeadlineEnd(DeadlineEnd(deadline)) == DeadlineEnd(deadline)
  {
    var day := deadline / DAY_MS;
    assert deadline == day * DAY_MS + deadline % DAY_MS;
    if IsDateOnly(deadline) {
      assert DeadlineEnd(deadline) == day * DAY_MS + (DAY_MS - 1);
    }
  }

  // ── Whether registration is open ──

  datatype Status = DRAFT | PUBLISHED | CANCELLED | COMPLETED

  datatype Rules = Rules(
    status: Status, rsvpDeadline: Option<Time>, closesAt: Option<Time>, cap: Option<nat>, guestLimit: Option<nat>,
    anyDayOpen: bool)

  datatype ClosedCode =
    | EVENT_CANCELLED | EVENT_FINISHED | NOT_PUBLISHED | RSVP_DEADLINE_PASSED | CLOSING_DATE_PASSED | NO_DAYS_OPEN
    | FULL

  datatype Closing = Closing(closesAt: Time, byDeadline: bool)

  function EffectiveClosing(rules: Rules): Option<Closing> {
    var closing := if rules.closesAt.Some? then Some(DeadlineEnd(rules.closesAt.value)) else None;
    var deadline := if rules.rsvpDeadline.Some? then Some(DeadlineEnd(rules.rsvpDeadline.value)) else None;
    if deadline.Some? && (closing.None? || deadline.value < closing.value) then Some(Closing(deadline.value, true))
    else if closing.Some? then Some(Closing(closing.value, false))
    else None
  }

  predicate IsFull(rules: Rules, seats: Seats) {
    || (rules.cap.Some? && seats.registeredSeats >= rules.cap.value)
    || (rules.guestLimit.Some? && seats.primaryGuests >= rules.guestLimit.value)
    || seats.totalGuests >= MAX_GUESTS_PER_EVENT
  }

  /** None while anyone at all can register; otherwise why not. */
  function ClosedBecause(rules: Rules, seats: Seats, now: Time): Option<ClosedCode> {
    var closing := EffectiveClosing(rules);
    if rules.status == CANCELLED then Some(EVENT_CANCELLED)
    else if rules.status == COMPLETED then Some(EVENT_FINISHED)
    else if rules.status != PUBLISHED then Some(NOT_PUBLISHED)
    else if closing.Some? && closing.value.closesAt < now
    then Some(if closing.value.byDeadline then RSVP_DEADLINE_PASSED else CLOSING_DATE_PASSED)
    else if !rules.anyDayOpen then Some(NO_DAYS_OPEN)
    else if IsFull(rules, seats) then Some(FULL)
    else None
  }

  /** Registration closes with the earlier of the two dates, each at its end, and never outlasts the RSVP deadline. */
  lemma {:induction false} OpenOnlyUntilBothDates(rules: Rules, seats: Seats, now: Time)
    ensures ClosedBecause(rules, seats, now).None? <==>
              && rules.status == PUBLISHED && rules.anyDayOpen && !IsFull(rules, seats)
              && (rules.rsvpDeadline.Some? ==> now <= DeadlineEnd(rules.rsvpDeadline.value))
              && (rules.closesAt.Some? ==> now <= DeadlineEnd(rules.closesAt.value))
    ensures ClosedBecause(rules, seats, now) == Some(RSVP_DEADLINE_PASSED) ==>
              rules.rsvpDeadline.Some? && DeadlineEnd(rules.rsvpDeadline.value) < now
              && (rules.closesAt.Some? ==> DeadlineEnd(rules.rsvpDeadline.value) < DeadlineEnd(rules.closesAt.value))
  {
  }

  datatype PartyRefusal = NoRoomAtAll | PartyTooLarge

  function PartyRefused(rules: Rules, seats: Seats, partySize: nat): Option<PartyRefusal> {
    if IsFull(rules, seats) then Some(NoRoomAtAll)
    else if (rules.cap.Some? && seats.registeredSeats + partySize > rules.cap.value) ||
        seats.totalGuests + partySize > MAX_GUESTS_PER_EVENT
    then Some(PartyTooLarge)
    else None
  }

  // ── Registering ──

  /** A request whose names, email and day ids are well formed, its email in normal form. */
  datatype Request = Request(email: Email, plusOnes: nat, dayIds: Option<set<Id>>)

  /** The rest of the event's settings a registration is held to. `answersOk` is its questions' own check. */
  datatype Settings = Settings(rules: Rules, openDays: set<Id>, plusOnesAllowed: nat, domainAllowed: Email -> bool,
                               answersOk: bool)

  datatype Refusal = Closed(code: ClosedCode) | EmailDomain | DayNotOpen | TooManyPlusOnes | AnswersInvalid
    | Party(reason: PartyRefusal)

  /** All a registrant sees: a refusal, or the success answer with whether the email went. */
  datatype Reply = Refused(refusal: Refusal) | Registered(emailSent: bool)

  /** What is refused before anything about the guest list is read. */
  function RefusedUpFront(settings: Settings, request: Request, now: Time): Option<Refusal> {
    if settings.rules.status != PUBLISHED then Some(Closed(ClosedBecause(settings.rules, Seats(0, 0, 0), now).value))
    else if !settings.domainAllowed(request.email) then Some(EmailDomain)
    else if request.dayIds.Some? && !(request.dayIds.value <= settings.openDays) then Some(DayNotOpen)
    else if request.plusOnes > settings.plusOnesAllowed then Some(TooManyPlusOnes)
    else if !settings.answersOk then Some(AnswersInvalid)
    else None
  }

  /** What a new registration is refused for, given the seats taken. */
  function RefusedForSeats(rules: Rules, seats: Seats, partySize: nat, now: Time): Option<Refusal> {
    var closed := ClosedBecause(rules, seats, now);
    var party := PartyRefused(rules, seats, partySize);
    if closed.Some? then Some(Closed(closed.value)) else if party.Some? then Some(Party(party.value)) else None
  }

  predicate HasLiveInvite(rows: Rows, g: Id) {
    exists i :: i in rows.invites && rows.invites[i].guest == g && !rows.invites[i].isArchived
  }

  /** Under the event's lock, then the email. `party` are the ids made up for a
      new party, `first` the guest found where one has the email, and `sendOk`
      whether sending an email works. */
  function Register(lower: string -> string, settings: Settings, rows: GuestRows.Rows, request: Request, now: Time,
                    party: seq<Member>, first: Id, sendOk: bool): (GuestRows.Rows, Reply)
    requires |party| == 1 + request.plusOnes
  {
    var upFront := RefusedUpFront(settings, request, now);
    if upFront.Some? then (rows, Refused(upFront.value))
    else
      var existing := WithEmail(lower, rows, request.email);
      var refusal := RefusedForSeats(settings.rules, CountSeats(rows), 1 + request.plusOnes, now);
      if existing != {} then
        var sent := HasLiveInvite(rows, first) ==> sendOk;
        (rows, if refusal.Some? then Refused(refusal.value) else Registered(sent))
      else if refusal.Some? then (rows, Refused(refusal.value))
      else if IndexRefuses(lower, rows, Some(request.email), party[0].guestId) then (rows, Registered(false))
      else (WithParty(rows, party, request.email, |party|), Registered(sendOk))
  }

  class RegistrationService {
    const tables: GuestTables

    constructor (tables: GuestTables)
      ensures this.tables == tables
    {
      this.tables := tables;
    }

    method Submit(lower: string -> string, settings: Settings, request: Request, now: Time, party: seq<Member>,
        first: Id, sendOk: bool)
      returns (reply: Reply)
      requires |party| == 1 + request.plusOnes
      modifies tables
      ensures (tables.rows, reply) == Register(lower, settings, old(tables.rows), request, now, party, first, sendOk)
    {
      var upFront := RefusedUpFront(settings, request, now);
      if upFront.Some? {
        return Refused(upFront.value);
      }
      var existing := WithEmail(lower, tables.rows, request.email);
      var refusal := RefusedForSeats(settings.rules, CountSeats(tables.rows), 1 + request.plusOnes, now);
      if existing != {} {
        var sent := HasLiveInvite(tables.rows, first) ==> sendOk;
        return if refusal.Some? then Refused(refusal.value) else Registered(sent);
      }
      if refusal.Some? {
        return Refused(refusal.value);
      }
      if IndexRefuses(lower, tables.rows, Some(request.email), party[0].guestId) {
        return Registered(false);
      }
      tables.CreateRegistrant(party, request.email);
      return Registered(sendOk);
    }
  }

  /** A registration that changes the guest list adds exactly its party, and
      leaves the cap, the plan's limit and the ceiling respected. */
  lemma {:induction false} AcceptedRegistrationFits(
    lower: string -> string, settings: Settings, rows: GuestRows.Rows, request: Request, now: Time, party: seq<Member>,
    first: Id, sendOk: bool)
    requires KeysHold(rows) && FreshParty(rows, party) && |party| == 1 + request.plusOnes
    ensures var (after, reply) := Register(lower, settings, rows, request, now, party, first, sendOk);
            after != rows ==>
              && reply == Registered(sendOk)
              && KeysHold(after)
              && CountSeats(after) == PlusParty(CountSeats(rows), |party|)
              && (settings.rules.cap.Some? ==> CountSeats(after).registeredSeats <= settings.rules.cap.value)
              && (settings.rules.guestLimit.Some? ==>
                  CountSeats(after).primaryGuests <= settings.rules.guestLimit.value)
              && CountSeats(after).totalGuests <= MAX_GUESTS_PER_EVENT
  {
    PartyCounts(rows, party, request.email, |party|);
    PartyKeepsKeys(rows, party, request.email, |party|);
  }

  lemma {:induction false} WritesItsPartyOrNothing(
    lower: string -> string, settings: Settings, rows: GuestRows.Rows, request: Request, now: Time, party: seq<Member>,
    first: Id, sendOk: bool)
    requires |party| == 1 + request.plusOnes
    ensures var after := Register(lower, settings, rows, request, now, party, first, sendOk).0;
            after != rows ==>
              after == WithParty(rows, party, request.email, |party|) &&
                  !IndexRefuses(lower, rows, Some(request.email), party[0].guestId)
  {
  }

  /** With lowercasing as relied on, a normal email no live guest has is never refused by the index. */
  lemma {:induction false} IndexAgreesForNormalEmails(lower: string -> string, rows: GuestRows.Rows, raw: Email,
      except: Id)
    requires IsLower(lower) && WithEmail(lower, rows, Normal(lower, raw)) == {}
    ensures !IndexRefuses(lower, rows, Some(Normal(lower, raw)), except)
  {
    TrimTrims(raw);
    forall g | g in rows.guests && !rows.guests[g].isArchived && rows.guests[g].email.Some?
      ensures lower(rows.guests[g].email.value) != lower(Normal(lower, raw))
    {
      SameLowerSameNormal(lower, rows.guests[g].email.value, raw);
      assert g !in WithEmail(lower, rows, Normal(lower, raw));
    }
  }

  lemma {:induction false} SameLowerSameNormal(lower: string -> string, stored: Email, raw: Email)
    requires IsLower(lower)
    ensures lower(stored) == lower(Normal(lower, raw)) ==> Normal(lower, stored) == Normal(lower, raw)
  {
    TrimTrims(raw);
    var email := Normal(lower, raw);
    assert Trim(lower(Trim(raw))) == lower(Trim(Trim(raw)));
    assert lower(email) == email && Trim(email) == email;
    assert Trim(lower(stored)) == lower(Trim(stored));
  }

  /** Two guest lists alike but for whether the email is on them answer a
      registrant the same, whenever its email can be sent; and the run that finds
      the email listed changes no guest, invite or seat. */
  lemma {:induction false} AnswerDoesNotTellWhetherListed(
    lower: string -> string, settings: Settings, listed: GuestRows.Rows, unlisted: GuestRows.Rows, request: Request,
    raw: Email, now: Time,
    party: seq<Member>, first: Id, otherFirst: Id, sendOk: bool)
    requires IsLower(lower) && request.email == Normal(lower, raw) && |party| == 1 + request.plusOnes
    requires CountSeats(listed) == CountSeats(unlisted)
    requires WithEmail(lower, listed, request.email) != {} && WithEmail(lower, unlisted, request.email) == {}
    ensures var (listedAfter, listedReply) := Register(lower, settings, listed, request, now, party, first, sendOk);
            var (_, unlistedReply) := Register(lower, settings, unlisted, request, now, party, otherFirst, sendOk);
            && listedAfter == listed
            && (sendOk || HasLiveInvite(listed, first) ==> listedReply == unlistedReply)
            && (listedReply.Refused? <==> unlistedReply.Refused?)
  {
    IndexAgreesForNormalEmails(lower, unlisted, raw, party[0].guestId);
  }

  /** The one way to tell: with no email going out, a listed guest whose every
      invite is archived is still told it was sent. */
  lemma {:induction false} FailedSendTellsArchivedInvites(
    lower: string -> string, settings: Settings, listed: GuestRows.Rows, unlisted: GuestRows.Rows, request: Request,
    raw: Email, now: Time,
    party: seq<Member>, first: Id, otherFirst: Id)
    requires IsLower(lower) && request.email == Normal(lower, raw) && |party| == 1 + request.plusOnes
    requires CountSeats(listed) == CountSeats(unlisted)
    requires WithEmail(lower, listed, request.email) != {} && WithEmail(lower, unlisted, request.email) == {}
    requires Register(lower, settings, unlisted, request, now, party, otherFirst, false).1.Registered?
    ensures Register(lower, settings, unlisted, request, now, party, otherFirst, false).1 == Registered(false)
    ensures Register(lower, settings, listed, request, now, party, first, false).1 ==
              Registered(!HasLiveInvite(listed, first))
  {
  }

  // ── Two such lists ──

  /** One guest with this email, their only invite archived. */
  function OneGuest(email: Email): GuestRows.Rows {
    Rows(map["g" := Guest(Some(email), false, None, false)], map["i" := Invite("g", true, PENDING)])
  }

  lemma {:induction false} OneGuestSeats(email: Email)
    ensures CountSeats(OneGuest(email)) == Seats(1, 0, 1) && !HasLiveInvite(OneGuest(email), "g")
  {
    var rows := OneGuest(email);
    assert Live(rows) == {"g"} && Primary(rows) == {"g"};
    assert Registrants(rows) == {} && RegistrantPlusOnes(rows) == {};
  }

  function Unchanged(s: string): string {
    s
  }

  /** An event open to anyone, with no limits of its own. */
  function OpenToAll(): Settings {
    Settings(Rules(PUBLISHED, None, None, None, None, true), {}, 0, _ => true, true)
  }

  /** With no email going out, "a@b.c" is told it was sent when it is on the list, and that it wasn't when it isn't. */
  lemma {:induction false} ArchivedInviteIsTold()
    ensures var request, party := Request("a@b.c", 0, None), [Member("p", "q")];
            && CountSeats(OneGuest("a@b.c")) == CountSeats(OneGuest("x@y.z"))
            && Register(Unchanged, OpenToAll(), OneGuest("a@b.c"), request, 0, party, "g", false).1 == Registered(true)
            && Register(Unchanged, OpenToAll(), OneGuest("x@y.z"), request, 0, party, "g", false).1 == Registered(false)
  {
    OneGuestSeats("a@b.c");
    OneGuestSeats("x@y.z");
    TrimTrims("a@b.c");
    TrimTrims("x@y.z");
    assert "x@y.z"[0] != "a@b.c"[0];
    assert "g" in WithEmail(Unchanged, OneGuest("a@b.c"), "a@b.c");
    assert WithEmail(Unchanged, OneGuest("x@y.z"), "a@b.c") == {};
  }
}
