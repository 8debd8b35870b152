/** Everything that makes or brings back a live guest, in any order, each under
    the event's row lock: the ceiling, and one guest per email. */
module GuestRuns {
  import opened Prelude
  import opened Text
  import opened GuestRows
  import R = Registration

  /** An organiser's new guest: checked for a duplicate before the lock, written under it. */
  datatype NewGuest = NewGuest(member: Member, email: Option<Email>)

  /** A restore reads whether its guest is archived before it takes the lock;
      every other step reads and writes under it, or is one write. */
  datatype Step =
    | RegisterStep(settings: R.Settings, request: R.Request, now: Time, party: seq<Member>, first: Id, sendOk: bool)
    | AddStep(newGuests: seq<NewGuest>, guestLimit: Option<nat>)
    | RestoreStep(guest: Id, readArchived: bool, guestLimit: Option<nat>)
    | ArchiveStep(guest: Id)
    | PlusOnesStep(host: Id, members: seq<Member>)
    | ChangeEmailStep(guest: Id, email: Option<Email>)

  /** Each guest inserted in turn: the index refuses, and the whole write with it. */
  function Inserted(lower: string -> string, rows: Rows, newGuests: seq<NewGuest>, n: nat): Option<Rows>
    requires n <= |newGuests|
  {
    if n == 0 then Some(rows)
    else
      var before := Inserted(lower, rows, newGuests, n - 1);
      var next := newGuests[n - 1];
      if before.None? || IndexRefuses(lower, before.value, next.email, next.member.guestId) then None
      else Some(WithGuest(before.value, next.member, Guest(next.email, false, None, false), PENDING))
  }

  /** The plan's guest limit counts primary guests; the ceiling, everyone. */
  predicate Creatable(rows: Rows, guestLimit: Option<nat>, count: nat, primary: bool) {
    && (primary && guestLimit.Some? ==> CountSeats(rows).primaryGuests + count <= guestLimit.value)
    && CountSeats(rows).totalGuests + count <= MAX_GUESTS_PER_EVENT
  }

  /** Restoring brings back every archived invite with the guest. */
  function Restored(rows: Rows, g: Id): Rows
    requires g in rows.guests
  {
    Rows(rows.guests[g := rows.guests[g].(isArchived := false)],
         map i | i in rows.invites :: if rows.invites[i].guest == g then rows.invites[i].(isArchived := false)
                                      else rows.invites[i])
  }

  function Archived(rows: Rows, g: Id): Rows
    requires g in rows.guests
  {
    Rows(rows.guests[g := rows.guests[g].(isArchived := true)],
         map i | i in rows.invites :: if rows.invites[i].guest == g then rows.invites[i].(isArchived := true)
                                      else rows.invites[i])
  }

  function WithPlusOnes(rows: Rows, host: Id, members: seq<Member>, n: nat): Rows
    requires n <= |members|
  {
    if n == 0 then rows
    else WithGuest(WithPlusOnes(rows, host, members, n - 1), members[n - 1], Guest(None, false, Some(host), false),
                   ACCEPTED)
  }

  /** New ids are new, emails written are in normal form, and guests named exist. */
  ghost predicate Enabled(lower: string -> string, rows: Rows, step: Step) {
    match step
    case RegisterStep(_, request, _, party, _, _) =>
      FreshParty(rows, party) && |party| == 1 + request.plusOnes && IsNormal(lower, request.email)
    case AddStep(newGuests, _) =>
      && FreshParty(rows, MembersOf(newGuests))
      && (forall n :: 0 <= n < |newGuests| && newGuests[n].email.Some? ==> IsNormal(lower, newGuests[n].email.value))
    case RestoreStep(guest, _, _) => guest in rows.guests
    case ArchiveStep(guest) => guest in rows.guests
    case PlusOnesStep(host, members) => host in rows.guests && FreshParty(rows, members)
    case ChangeEmailStep(guest, email) => guest in rows.guests && (email.Some? ==> IsNormal(lower, email.value))
  }

  ghost predicate IsNormal(lower: string -> string, email: Email) {
    exists raw :: email == Normal(lower, raw)
  }

  function MembersOf(newGuests: seq<NewGuest>): seq<Member> {
    seq(|newGuests|, n requires 0 <= n < |newGuests| => newGuests[n].member)
  }

  function Next(lower: string -> string, rows: Rows, step: Step): Rows {
    match step
    case RegisterStep(settings, request, now, party, first, sendOk) =>
      if |party| == 1 + request.plusOnes then R.Register(lower, settings, rows, request, now, party, first, sendOk).0
      else rows
    case AddStep(newGuests, guestLimit) =>
      var written := Inserted(lower, rows, newGuests, |newGuests|);
      if Creatable(rows, guestLimit, |newGuests|, true) && written.Some? then written.value else rows
    case RestoreStep(g, readArchived, guestLimit) =>
      if g !in rows.guests then rows
      else if readArchived && !Creatable(rows, guestLimit, 1, rows.guests[g].host.None?) then rows
      else if rows.guests[g].isArchived && IndexRefuses(lower, rows, rows.guests[g].email, g) then rows
      else Restored(rows, g)
    case ArchiveStep(g) => if g in rows.guests then Archived(rows, g) else rows
    case PlusOnesStep(host, members) =>
      if CountSeats(rows).totalGuests + |members| <= MAX_GUESTS_PER_EVENT
      then WithPlusOnes(rows, host, members, |members|) else rows
    case ChangeEmailStep(g, email) =>
      if g !in rows.guests || (!rows.guests[g].isArchived && IndexRefuses(lower, rows, email, g)) then rows
      else rows.(guests := rows.guests[g := rows.guests[g].(email := email)])
  }

  // ── One step ──

  ghost predicate EmailsOk(lower: string -> string, rows: Rows) {
    EmailsTrimmed(rows) && EmailsUnique(lower, rows)
  }

  ghost predicate Inv(lower: string -> string, rows: Rows) {
    KeysHold(rows) && EmailsOk(lower, rows)
  }

  predicate WithinCeiling(rows: Rows) {
    CountSeats(rows).totalGuests <= MAX_GUESTS_PER_EVENT
  }

  /** A restore whose guest was live when it looked, and is archived by the time it writes. */
  predicate IsStaleRestore(rows: Rows, step: Step) {
    step.RestoreStep? && !step.readArchived && step.guest in rows.guests && rows.guests[step.guest].isArchived
  }

  /** With trimmed emails, what the index lets by is new in normal form too. */
  lemma {:induction false} IndexLetsByNew(lower: string -> string, rows: Rows, email: Email, except: Id, g: Id)
    requires IsLower(lower) && EmailsTrimmed(rows) && Trim(email) == email &&
               !IndexRefuses(lower, rows, Some(email), except)
    requires g in Live(rows) && g != except && rows.guests[g].email.Some?
    ensures Normal(lower, rows.guests[g].email.value) != Normal(lower, email)
  {
  }

  lemma {:induction false} NormalIsTrimmed(lower: string -> string, email: Email)
    requires IsLower(lower) && IsNormal(lower, email)
    ensures Trim(email) == email && lower(email) == email
  {
    var raw :| email == Normal(lower, raw);
    TrimTrims(raw);
    assert Trim(lower(Trim(raw))) == lower(Trim(Trim(raw)));
  }

  lemma {:induction false} OneMoreCount(rows: Rows, member: Member, guest: Guest, status: InviteStatus)
    requires KeysHold(rows) && member.guestId !in rows.guests && member.inviteId !in rows.invites && !guest.isArchived
    requires guest.host.Some? ==> guest.host.value in rows.guests
    ensures KeysHold(WithGuest(rows, member, guest, status))
    ensures |Live(WithGuest(rows, member, guest, status))| == |Live(rows)| + 1
  {
    assert Live(WithGuest(rows, member, guest, status)) == Live(rows) + {member.guestId};
  }

  /** A live guest more, with an email no other live guest has, or none. */
  lemma {:induction false} OneMoreEmail(lower: string -> string, rows: Rows, member: Member, guest: Guest,
      status: InviteStatus)
    requires IsLower(lower) && EmailsOk(lower, rows) && member.guestId !in rows.guests
    requires guest.email.Some? ==> IsNormal(lower, guest.email.value)
    requires !IndexRefuses(lower, rows, guest.email, member.guestId)
    ensures EmailsOk(lower, WithGuest(rows, member, guest, status))
  {
    var after := WithGuest(rows, member, guest, status);
    if guest.email.Some? {
      NormalIsTrimmed(lower, guest.email.value);
      forall g | g in Live(rows) && rows.guests[g].email.Some?
        ensures Normal(lower, rows.guests[g].email.value) != Normal(lower, guest.email.value)
      {
        IndexLetsByNew(lower, rows, guest.email.value, member.guestId, g);
      }
    }
  }

  lemma {:induction false} PartyKeepsEmails(lower: string -> string, rows: Rows, party: seq<Member>, email: Email,
      n: nat)
    requires IsLower(lower) && EmailsOk(lower, rows) && FreshParty(rows, party) && n <= |party|
    requires IsNormal(lower, email) && (party != [] ==> !IndexRefuses(lower, rows, Some(email), party[0].guestId))
    ensures EmailsOk(lower, WithParty(rows, party, email, n))
  {
    if n > 0 {
      PartyKeepsEmails(lower, rows, party, email, n - 1);
      PartySoFar(rows, party, email, n - 1);
      if n == 1 {
        OneMoreEmail(lower, rows, party[0], Guest(Some(email), false, None, true), ACCEPTED);
      } else {
        OneMoreEmail(lower, WithParty(rows, party, email, n - 1), party[n - 1],
                     Guest(None, false, Some(party[0].guestId), false), ACCEPTED);
      }
    }
  }

  lemma {:induction false} StillNew(lower: string -> string, rows: Rows, newGuests: seq<NewGuest>, n: nat)
    requires n <= |newGuests| && FreshParty(rows, MembersOf(newGuests)) && Inserted(lower, rows, newGuests, n).Some?
    ensures var after := Inserted(lower, rows, newGuests, n).value;
            forall m :: n <= m < |newGuests| ==>
              MembersOf(newGuests)[m].guestId !in after.guests && MembersOf(newGuests)[m].inviteId !in after.invites
  {
    if n > 0 {
      StillNew(lower, rows, newGuests, n - 1);
      assert MembersOf(newGuests)[n - 1] == newGuests[n - 1].member;
    }
  }

  function Invited(newGuest: NewGuest): Guest {
    Guest(newGuest.email, false, None, false)
  }

  lemma {:induction false} InsertsCount(lower: string -> string, rows: Rows, newGuests: seq<NewGuest>, n: nat)
    requires KeysHold(rows) && n <= |newGuests| && FreshParty(rows, MembersOf(newGuests))
    requires Inserted(lower, rows, newGuests, n).Some?
    ensures KeysHold(Inserted(lower, rows, newGuests, n).value)
    ensures |Live(Inserted(lower, rows, newGuests, n).value)| == |Live(rows)| + n
  {
    if n > 0 {
      InsertsCount(lower, rows, newGuests, n - 1);
      StillNew(lower, rows, newGuests, n - 1);
      assert MembersOf(newGuests)[n - 1] == newGuests[n - 1].member;
      OneMoreCount(Inserted(lower, rows, newGuests, n - 1).value, newGuests[n - 1].member, Invited(newGuests[n - 1]),
                   PENDING);
    }
  }

  lemma {:induction false} InsertsKeepEmails(lower: string -> string, rows: Rows, newGuests: seq<NewGuest>, n: nat)
    requires IsLower(lower) && EmailsOk(lower, rows) && n <= |newGuests| && FreshParty(rows, MembersOf(newGuests))
    requires forall m :: 0 <= m < |newGuests| && newGuests[m].email.Some? ==> IsNormal(lower, newGuests[m].email.value)
    requires Inserted(lower, rows, newGuests, n).Some?
    ensures EmailsOk(lower, Inserted(lower, rows, newGuests, n).value)
  {
    if n > 0 {
      InsertsKeepEmails(lower, rows, newGuests, n - 1);
      StillNew(lower, rows, newGuests, n - 1);
      assert MembersOf(newGuests)[n - 1] == newGuests[n - 1].member;
      OneMoreEmail(lower, Inserted(lower, rows, newGuests, n - 1).value, newGuests[n - 1].member,
                   Invited(newGuests[n - 1]), PENDING);
    }
  }

  lemma {:induction false} PlusOnesSoFar(rows: Rows, host: Id, members: seq<Member>, n: nat)
    requires n <= |members| && FreshParty(rows, members) && host in rows.guests
    ensures var after := WithPlusOnes(rows, host, members, n);
            && host in after.guests
            && (forall m :: n <= m < |members| ==>
                members[m].guestId !in after.guests && members[m].inviteId !in after.invites)
  {
    if n > 0 {
      PlusOnesSoFar(rows, host, members, n - 1);
    }
  }

  lemma {:induction false} PlusOnesKeepEmails(lower: string -> string, rows: Rows, host: Id, members: seq<Member>,
      n: nat)
    requires IsLower(lower) && EmailsOk(lower, rows) && n <= |members| && FreshParty(rows, members) &&
               host in rows.guests
    ensures EmailsOk(lower, WithPlusOnes(rows, host, members, n))
  {
    if n > 0 {
      PlusOnesKeepEmails(lower, rows, host, members, n - 1);
      PlusOnesSoFar(rows, host, members, n - 1);
      OneMoreEmail(lower, WithPlusOnes(rows, host, members, n - 1), members[n - 1],
                   Guest(None, false, Some(host), false), ACCEPTED);
    }
  }

  lemma {:induction false} PlusOnesCount(rows: Rows, host: Id, members: seq<Member>, n: nat)
    requires KeysHold(rows) && n <= |members| && FreshParty(rows, members) && host in rows.guests
    ensures KeysHold(WithPlusOnes(rows, host, members, n))
    ensures |Live(WithPlusOnes(rows, host, members, n))| == |Live(rows)| + n
  {
    if n > 0 {
      PlusOnesCount(rows, host, members, n - 1);
      PlusOnesSoFar(rows, host, members, n - 1);
      OneMoreCount(WithPlusOnes(rows, host, members, n - 1), members[n - 1], Guest(None, false, Some(host), false),
                   ACCEPTED);
    }
  }

  lemma {:induction false} RestoreCounts(rows: Rows, g: Id)
    requires KeysHold(rows) && g in rows.guests
    ensures KeysHold(Restored(rows, g))
    ensures Live(Restored(rows, g)) == Live(rows) + {g}
    ensures |Live(Restored(rows, g))| == |Live(rows)| + if rows.guests[g].isArchived then 1 else 0
  {
    assert Live(Restored(rows, g)) == Live(rows) + {g};
    if !rows.guests[g].isArchived {
      assert Live(rows) + {g} == Live(rows);
    } else {
      assert g !in Live(rows);
    }
  }

  lemma {:induction false} RestoredUniqueExactly(lower: string -> string, rows: Rows, g: Id)
    requires KeysHold(rows) && EmailsUnique(lower, rows) && g in rows.guests && rows.guests[g].isArchived &&
               rows.guests[g].email.Some?
    ensures EmailsUnique(lower, Restored(rows, g)) <==>
              WithEmail(lower, rows, Normal(lower, rows.guests[g].email.value)) == {}
  {
    var after := Restored(rows, g);
    RestoreCounts(rows, g);
    var same := WithEmail(lower, rows, Normal(lower, rows.guests[g].email.value));
    if same != {} {
      var h :| h in same;
      assert h in Live(after) && g in Live(after) && h != g && after.guests[h] == rows.guests[h];
    } else {
      forall h | h in Live(rows) && rows.guests[h].email.Some?
        ensures Normal(lower, rows.guests[h].email.value) != Normal(lower, rows.guests[g].email.value)
      {
        assert h !in same;
      }
    }
  }

  /** A restore breaks uniqueness exactly when it is admitted, a live guest has this
      email in normal form, and none has it by lowercasing alone, which is all the index looks at. */
  lemma {:induction false} RestoreKeepsUniqueExactly(lower: string -> string, rows: Rows, g: Id, readArchived: bool,
      guestLimit: Option<nat>)
    requires KeysHold(rows) && EmailsUnique(lower, rows) && g in rows.guests && rows.guests[g].isArchived &&
               rows.guests[g].email.Some?
    ensures var email := rows.guests[g].email.value;
            !EmailsUnique(lower, Next(lower, rows, RestoreStep(g, readArchived, guestLimit))) <==>
              && (readArchived ==> Creatable(rows, guestLimit, 1, rows.guests[g].host.None?))
              && (exists h ::
                    && h in Live(rows) && rows.guests[h].email.Some?
                    && Normal(lower, rows.guests[h].email.value) == Normal(lower, email))
              && (forall h :: h in Live(rows) && rows.guests[h].email.Some? ==>
                  lower(rows.guests[h].email.value) != lower(email))
  {
    var email := rows.guests[g].email.value;
    RestoredUniqueExactly(lower, rows, g);
    SharedExactly(lower, rows, Normal(lower, email));
    assert IndexRefuses(lower, rows, Some(email), g) <==>
           exists h :: h in Live(rows) && rows.guests[h].email.Some? &&
               lower(rows.guests[h].email.value) == lower(email);
  }

  lemma {:induction false} SharedExactly(lower: string -> string, rows: Rows, email: Email)
    ensures WithEmail(lower, rows, email) != {} <==>
            exists h :: h in Live(rows) && rows.guests[h].email.Some? &&
                Normal(lower, rows.guests[h].email.value) == email
  {
    forall h ensures h in WithEmail(lower, rows, email) <==>
                     h in Live(rows) && rows.guests[h].email.Some? && Normal(lower, rows.guests[h].email.value) == email
    {
    }
  }

  lemma {:induction false} RestoreKeepsEmails(lower: string -> string, rows: Rows, g: Id)
    requires IsLower(lower) && KeysHold(rows) && EmailsOk(lower, rows) && g in rows.guests && rows.guests[g].isArchived
    requires !IndexRefuses(lower, rows, rows.guests[g].email, g)
    ensures EmailsOk(lower, Restored(rows, g))
  {
    if rows.guests[g].email.Some? {
      forall h ensures h !in WithEmail(lower, rows, Normal(lower, rows.guests[g].email.value)) {
        if h in Live(rows) && rows.guests[h].email.Some? {
          IndexLetsByNew(lower, rows, rows.guests[g].email.value, g, h);
        }
      }
      RestoredUniqueExactly(lower, rows, g);
    } else {
      RestoreCounts(rows, g);
    }
  }

  lemma {:induction false} RestoringLiveChangesNoGuest(rows: Rows, g: Id)
    requires g in rows.guests && !rows.guests[g].isArchived
    ensures Restored(rows, g).guests == rows.guests && Live(Restored(rows, g)) == Live(rows)
  {
  }

  lemma {:induction false} RestoreKeepsInv(lower: string -> string, rows: Rows, g: Id, readArchived: bool,
      guestLimit: Option<nat>)
    requires IsLower(lower) && Inv(lower, rows) && g in rows.guests
    ensures Inv(lower, Next(lower, rows, RestoreStep(g, readArchived, guestLimit)))
  {
    RestoreCounts(rows, g);
    if !rows.guests[g].isArchived {
      RestoringLiveChangesNoGuest(rows, g);
    } else if !IndexRefuses(lower, rows, rows.guests[g].email, g) {
      RestoreKeepsEmails(lower, rows, g);
    }
  }

  /** A restore keeps the ceiling exactly unless its guest, live when it
      looked, was archived since, the event is full, and no live guest has its email. */
  lemma {:induction false} RestoreKeepsCeilingExactly(lower: string -> string, rows: Rows, g: Id, readArchived: bool,
      guestLimit: Option<nat>)
    requires KeysHold(rows) && WithinCeiling(rows) && g in rows.guests
    ensures var step := RestoreStep(g, readArchived, guestLimit);
            WithinCeiling(Next(lower, rows, step)) <==>
            !(IsStaleRestore(rows, step) && CountSeats(rows).totalGuests == MAX_GUESTS_PER_EVENT
              && !IndexRefuses(lower, rows, rows.guests[g].email, g))
  {
    RestoreCounts(rows, g);
  }

  lemma {:induction false} ArchiveKeepsInv(lower: string -> string, rows: Rows, g: Id)
    requires Inv(lower, rows) && g in rows.guests
    ensures Inv(lower, Archived(rows, g))
  {
    assert Live(Archived(rows, g)) == Live(rows) - {g};
  }

  lemma {:induction false} ChangeEmailKeepsEmails(lower: string -> string, rows: Rows, g: Id, email: Option<Email>)
    requires IsLower(lower) && EmailsOk(lower, rows) && g in rows.guests &&
               (email.Some? ==> IsNormal(lower, email.value))
    requires rows.guests[g].isArchived || !IndexRefuses(lower, rows, email, g)
    ensures EmailsOk(lower, rows.(guests := rows.guests[g := rows.guests[g].(email := email)]))
  {
    if email.Some? {
      NormalIsTrimmed(lower, email.value);
      if g in Live(rows) {
        forall h | h in Live(rows) && h != g && rows.guests[h].email.Some?
          ensures Normal(lower, rows.guests[h].email.value) != Normal(lower, email.value)
        {
          IndexLetsByNew(lower, rows, email.value, g, h);
        }
      }
    }
  }

  lemma {:induction false} ChangeEmailKeepsInv(lower: string -> string, rows: Rows, g: Id, email: Option<Email>)
    requires IsLower(lower) && Inv(lower, rows) && g in rows.guests && (email.Some? ==> IsNormal(lower, email.value))
    ensures Inv(lower, Next(lower, rows, ChangeEmailStep(g, email)))
  {
    var after := rows.(guests := rows.guests[g := rows.guests[g].(email := email)]);
    assert Live(after) == Live(rows);
    if rows.guests[g].isArchived || !IndexRefuses(lower, rows, email, g) {
      ChangeEmailKeepsEmails(lower, rows, g, email);
    }
  }

  lemma {:induction false} RegisterKeepsInv(
    lower: string -> string, settings: R.Settings, rows: Rows, request: R.Request, now: Time, party: seq<Member>,
    first: Id, sendOk: bool)
    requires IsLower(lower) && Inv(lower, rows) && FreshParty(rows, party) && |party| == 1 + request.plusOnes &&
               IsNormal(lower, request.email)
    ensures Inv(lower, R.Register(lower, settings, rows, request, now, party, first, sendOk).0)
  {
    var after := R.Register(lower, settings, rows, request, now, party, first, sendOk).0;
    R.WritesItsPartyOrNothing(lower, settings, rows, request, now, party, first, sendOk);
    R.AcceptedRegistrationFits(lower, settings, rows, request, now, party, first, sendOk);
    if after != rows {
      PartyKeepsEmails(lower, rows, party, request.email, |party|);
    }
  }

  lemma {:induction false} StepKeepsInv(lower: string -> string, rows: Rows, step: Step)
    requires IsLower(lower) && Inv(lower, rows) && Enabled(lower, rows, step)
    ensures Inv(lower, Next(lower, rows, step))
  {
    match step
    case RegisterStep(settings, request, now, party, first, sendOk) =>
      RegisterKeepsInv(lower, settings, rows, request, now, party, first, sendOk);
    case AddStep(newGuests, _) =>
      if Inserted(lower, rows, newGuests, |newGuests|).Some? {
        InsertsCount(lower, rows, newGuests, |newGuests|);
        InsertsKeepEmails(lower, rows, newGuests, |newGuests|);
      }
    case RestoreStep(g, readArchived, guestLimit) => RestoreKeepsInv(lower, rows, g, readArchived, guestLimit);
    case ArchiveStep(g) => ArchiveKeepsInv(lower, rows, g);
    case PlusOnesStep(host, members) => {
      PlusOnesCount(rows, host, members, |members|);
      PlusOnesKeepEmails(lower, rows, host, members, |members|);
    }
    case ChangeEmailStep(g, email) => ChangeEmailKeepsInv(lower, rows, g, email);
  }

  lemma {:induction false} StepKeepsCeiling(lower: string -> string, rows: Rows, step: Step)
    requires KeysHold(rows) && WithinCeiling(rows) && Enabled(lower, rows, step) && !IsStaleRestore(rows, step)
    ensures WithinCeiling(Next(lower, rows, step))
  {
    match step
    case RegisterStep(settings, request, now, party, first, sendOk) =>
      R.AcceptedRegistrationFits(lower, settings, rows, request, now, party, first, sendOk);
    case AddStep(newGuests, _) =>
      if Inserted(lower, rows, newGuests, |newGuests|).Some? {
        InsertsCount(lower, rows, newGuests, |newGuests|);
      }
    case RestoreStep(g, readArchived, guestLimit) => RestoreKeepsCeilingExactly(lower, rows, g, readArchived,
        guestLimit);
    case ArchiveStep(g) => ArchiveCounts(rows, g);
    case PlusOnesStep(host, members) => PlusOnesCount(rows, host, members, |members|);
    case ChangeEmailStep(g, email) => EmailChangesNoCount(rows, g, email);
  }

  lemma {:induction false} ArchiveCounts(rows: Rows, g: Id)
    requires g in rows.guests
    ensures |Live(Archived(rows, g))| <= |Live(rows)|
  {
    assert Live(Archived(rows, g)) == Live(rows) - {g};
    SubsetIsNoLarger(Live(rows) - {g}, Live(rows));
  }

  lemma {:induction false} EmailChangesNoCount(rows: Rows, g: Id, email: Option<Email>)
    requires g in rows.guests
    ensures Live(rows.(guests := rows.guests[g := rows.guests[g].(email := email)])) == Live(rows)
  {
  }

  // ── Whole histories ──

  ghost predicate Run(lower: string -> string, rows: Rows, steps: seq<Step>)
    decreases |steps|
  {
    steps == [] || (Enabled(lower, rows, steps[0]) && Run(lower, Next(lower, rows, steps[0]), steps[1..]))
  }

  function After(lower: string -> string, rows: Rows, steps: seq<Step>): Rows
    decreases |steps|
  {
    if steps == [] then rows else After(lower, Next(lower, rows, steps[0]), steps[1..])
  }

  /** However registrations, additions, imports, restores, plus-ones, email
      changes and archives interleave, no two live guests ever share an email
      in normal form. */
  lemma {:induction false} EmailsStayUnique(lower: string -> string, rows: Rows, steps: seq<Step>)
    requires IsLower(lower) && Inv(lower, rows) && Run(lower, rows, steps)
    ensures Inv(lower, After(lower, rows, steps)) && EmailsUnique(lower, After(lower, rows, steps))
    decreases |steps|
  {
    if steps != [] {
      StepKeepsInv(lower, rows, steps[0]);
      EmailsStayUnique(lower, Next(lower, rows, steps[0]), steps[1..]);
    }
  }

  /** No restore's guest was archived between its look and its write. */
  ghost predicate NoStaleRestore(lower: string -> string, rows: Rows, steps: seq<Step>)
    decreases |steps|
  {
    steps == [] || (!IsStaleRestore(rows, steps[0]) && NoStaleRestore(lower, Next(lower, rows, steps[0]), steps[1..]))
  }

  /** Nor does the event ever have over 5,000 live guests, unless a guest is
      archived while their own restore is under way. */
  lemma {:induction false} CeilingHolds(lower: string -> string, rows: Rows, steps: seq<Step>)
    requires IsLower(lower) && Inv(lower, rows) && WithinCeiling(rows) && Run(lower, rows, steps) &&
               NoStaleRestore(lower, rows, steps)
    ensures WithinCeiling(After(lower, rows, steps))
    decreases |steps|
  {
    if steps != [] {
      StepKeepsInv(lower, rows, steps[0]);
      StepKeepsCeiling(lower, rows, steps[0]);
      CeilingHolds(lower, Next(lower, rows, steps[0]), steps[1..]);
    }
  }

  // ── What gets by ──

  /** One guest added by hand, live, and archived again; then n others. */
  function Crowd(n: nat): Rows {
    if n == 0 then Rows(map["old" := Guest(None, true, None, false)], map[])
    else WithGuest(Crowd(n - 1), Member(Digits(n), Digits(n)), Guest(None, false, None, false), PENDING)
  }

  lemma {:induction false} CrowdHolds(n: nat)
    ensures KeysHold(Crowd(n)) && |Live(Crowd(n))| == n
    ensures forall m: nat :: m > n ==> Digits(m) !in Crowd(n).guests && Digits(m) !in Crowd(n).invites
    ensures "old" in Crowd(n).guests && Crowd(n).guests["old"] == Guest(None, true, None, false)
  {
    forall m: nat ensures Digits(m) != "old" {
      assert IsDigit(Digits(m)[0]);
    }
    if n == 0 {
      assert Live(Crowd(0)) == {};
    } else {
      CrowdHolds(n - 1);
      forall m: nat | m > n ensures Digits(m) != Digits(n) {
        DigitsReadBack(m);
        DigitsReadBack(n);
      }
      OneMoreCount(Crowd(n - 1), Member(Digits(n), Digits(n)), Guest(None, false, None, false), PENDING);
    }
  }

  lemma {:induction false} StaleRestoreWrites(lower: string -> string, rows: Rows, g: Id)
    requires g in rows.guests && rows.guests[g].email.None?
    ensures Next(lower, rows, RestoreStep(g, false, None)) == Restored(rows, g)
  {
  }

  lemma {:induction false} RunOneMore(lower: string -> string, rows: Rows, steps: seq<Step>, step: Step)
    requires Run(lower, rows, steps) && Enabled(lower, After(lower, rows, steps), step)
    ensures Run(lower, rows, steps + [step])
    ensures After(lower, rows, steps + [step]) == Next(lower, After(lower, rows, steps), step)
    decreases |steps|
  {
    if steps == [] {
      assert steps + [step] == [step] && [step][1..] == [];
    } else {
      assert (steps + [step])[1..] == steps[1..] + [step];
      RunOneMore(lower, Next(lower, rows, steps[0]), steps[1..], step);
    }
  }

  /** One live guest, added by hand. */
  function OneLive(): Rows {
    Rows(map["old" := Guest(None, false, None, false)], map[])
  }

  function Addition(n: nat): Step {
    AddStep([NewGuest(Member(Digits(n), Digits(n)), None)], None)
  }

  /** The guest archived, then n others added one by one. */
  function Filling(n: nat): seq<Step> {
    if n == 0 then [ArchiveStep("old")] else Filling(n - 1) + [Addition(n)]
  }

  lemma {:induction false} AdditionAdds(lower: string -> string, n: nat)
    requires n < MAX_GUESTS_PER_EVENT
    ensures Enabled(lower, Crowd(n), Addition(n + 1)) && Next(lower, Crowd(n), Addition(n + 1)) == Crowd(n + 1)
  {
    CrowdHolds(n);
    var added := Addition(n + 1).newGuests;
    assert MembersOf(added) == [Member(Digits(n + 1), Digits(n + 1))];
    assert Inserted(lower, Crowd(n), added, 0) == Some(Crowd(n));
    assert Inserted(lower, Crowd(n), added, 1) == Some(Crowd(n + 1));
  }

  lemma {:induction false} FillingFills(lower: string -> string, n: nat)
    requires n <= MAX_GUESTS_PER_EVENT
    ensures Run(lower, OneLive(), Filling(n)) && After(lower, OneLive(), Filling(n)) == Crowd(n)
  {
    if n == 0 {
      assert Archived(OneLive(), "old") == Crowd(0);
      assert [ArchiveStep("old")][1..] == [];
    } else {
      FillingFills(lower, n - 1);
      AdditionAdds(lower, n - 1);
      RunOneMore(lower, OneLive(), Filling(n - 1), Addition(n));
    }
  }

  lemma {:induction false} RestoredUncounted(lower: string -> string, n: nat)
    requires n <= MAX_GUESTS_PER_EVENT
    ensures var steps := Filling(n) + [RestoreStep("old", false, None)];
            && "old" in Crowd(n).guests
            && Run(lower, OneLive(), steps) && After(lower, OneLive(), steps) == Restored(Crowd(n), "old")
    ensures |Live(After(lower, OneLive(), Filling(n)))| == n && |Live(Restored(Crowd(n), "old"))| == n + 1
  {
    CrowdHolds(n);
    FillingFills(lower, n);
    StaleRestoreWrites(lower, Crowd(n), "old");
    RunOneMore(lower, OneLive(), Filling(n), RestoreStep("old", false, None));
    RestoreCounts(Crowd(n), "old");
  }

  lemma {:induction false} OneLiveIsSound(lower: string -> string)
    ensures Inv(lower, OneLive()) && WithinCeiling(OneLive())
  {
    assert Live(OneLive()) == {"old"};
  }

  /** A restore looks at a live guest; the guest is archived, the event filled to its
      ceiling; the restore then writes what it looked up, uncounted, and there are 5,001. */
  lemma {:induction false} StaleRestoreOverfills(lower: string -> string) returns (filling: seq<Step>, restore: Step)
    ensures Inv(lower, OneLive()) && WithinCeiling(OneLive())
    ensures restore == RestoreStep("old", OneLive().guests["old"].isArchived, None)
    ensures Run(lower, OneLive(), filling + [restore]) && WithinCeiling(After(lower, OneLive(), filling))
    ensures CountSeats(After(lower, OneLive(), filling + [restore])).totalGuests == MAX_GUESTS_PER_EVENT + 1
  {
    var full: nat := MAX_GUESTS_PER_EVENT;
    filling, restore := Filling(full), RestoreStep("old", false, None);
    OneLiveIsSound(lower);
    RestoredUncounted(lower, full);
  }

  /** The index lowercases but does not trim: a stored email with blanks around
      it, restored beside a live guest's same email without them, is let by. */
  lemma {:induction false} PaddedEmailRestored(lower: string -> string, clean: Email, padded: Email)
      returns (rows: Rows)
    requires lower(padded) != lower(clean) && Trim(padded) == clean && Trim(clean) == clean
    ensures KeysHold(rows) && EmailsUnique(lower, rows)
    ensures !EmailsUnique(lower, Next(lower, rows, RestoreStep("old", true, None)))
  {
    rows := Rows(map["new" := Guest(Some(clean), false, None, false), "old" := Guest(Some(padded), true, None, false)],
                 map[]);
    assert Live(rows) == {"new"};
    assert "new" in WithEmail(lower, rows, Normal(lower, padded));
    RestoredUniqueExactly(lower, rows, "old");
    assert !IndexRefuses(lower, rows, Some(padded), "old");
  }

  /** One such email. */
  lemma {:induction false} UntrimmedEmailRestored(lower: string -> string) returns (rows: Rows)
    requires lower("a@b.c") == "a@b.c" && lower(" a@b.c") == " a@b.c"
    ensures KeysHold(rows) && EmailsUnique(lower, rows)
    ensures !EmailsUnique(lower, Next(lower, rows, RestoreStep("old", true, None)))
  {
    assert " a@b.c"[1..] == "a@b.c";
    assert TrimStart(" a@b.c") == TrimStart("a@b.c") == "a@b.c";
    rows := PaddedEmailRestored(lower, "a@b.c", " a@b.c");
  }
}
