/** One event's guest list: guests, plus-ones and invites, how seats are
    counted over them, and the writes that add, restore and archive guests. */
module GuestRows {
  import opened Prelude
  import opened Text

  type Id = string
  type Email = string

  const MAX_GUESTS_PER_EVENT: nat := 5000

  datatype InviteStatus = PENDING | ACCEPTED | DECLINED

  /** A plus-one has a host; only a registrant adds themselves. */
  datatype Guest = Guest(email: Option<Email>, isArchived: bool, host: Option<Id>, selfRegistered: bool)

  datatype Invite = Invite(guest: Id, isArchived: bool, status: InviteStatus)

  datatype Rows = Rows(guests: map<Id, Guest>, invites: map<Id, Invite>)

  /** Hosts and invited guests exist, as the foreign keys say. */
  ghost predicate KeysHold(rows: Rows) {
    && (forall g :: g in rows.guests && rows.guests[g].host.Some? ==> rows.guests[g].host.value in rows.guests)
    && (forall i :: i in rows.invites ==> rows.invites[i].guest in rows.guests)
  }

  // ── Counting ──

  function Live(rows: Rows): set<Id> {
    set g | g in rows.guests && !rows.guests[g].isArchived
  }

  function Primary(rows: Rows): set<Id> {
    set g | g in rows.guests && !rows.guests[g].isArchived && rows.guests[g].host.None?
  }

  predicate HasSeat(rows: Rows, g: Id) {
    exists i :: i in rows.invites && rows.invites[i].guest == g && !rows.invites[i].isArchived &&
        rows.invites[i].status != DECLINED
  }

  /** Registrants holding a seat: with a live invite they haven't declined. */
  function Registrants(rows: Rows): set<Id> {
    set g | g in rows.guests && !rows.guests[g].isArchived && rows.guests[g].host.None? &&
        rows.guests[g].selfRegistered && HasSeat(rows, g)
  }

  predicate HostedByRegistrant(rows: Rows, p: Id)
    requires p in rows.guests
  {
    var host := rows.guests[p].host;
    host.Some? && host.value in rows.guests && !rows.guests[host.value].isArchived &&
        rows.guests[host.value].selfRegistered
  }

  function RegistrantPlusOnes(rows: Rows): set<Id> {
    set p | p in rows.guests && !rows.guests[p].isArchived && HostedByRegistrant(rows, p)
  }

  datatype Seats = Seats(primaryGuests: nat, registeredSeats: nat, totalGuests: nat)

  function CountSeats(rows: Rows): Seats {
    Seats(|Primary(rows)|, |Registrants(rows)| + |RegistrantPlusOnes(rows)|, |Live(rows)|)
  }

  // ── Emails ──

  /** normalizeEmail: trimmed and lowercased. */
  function Normal(lower: string -> string, email: Email): Email {
    lower(Trim(email))
  }

  /** What lowercasing is relied on for: it is idempotent and leaves blanks alone. */
  ghost predicate IsLower(lower: string -> string) {
    && (forall s :: lower(lower(s)) == lower(s))
    && (forall s {:trigger Trim(lower(s))} {:trigger lower(Trim(s))} :: Trim(lower(s)) == lower(Trim(s)))
  }

  /** The live guest with this email, compared in normal form. */
  function WithEmail(lower: string -> string, rows: Rows, email: Email): set<Id> {
    set g | g in rows.guests && !rows.guests[g].isArchived && rows.guests[g].email.Some? &&
        Normal(lower, rows.guests[g].email.value) == email
  }

  /** The unique index refuses this email beside the live guests, `except` one: lowercased, not trimmed. */
  predicate IndexRefuses(lower: string -> string, rows: Rows, email: Option<Email>, except: Id) {
    email.Some?
    && (exists g :: g in rows.guests && g != except && !rows.guests[g].isArchived && rows.guests[g].email.Some?
                    && lower(rows.guests[g].email.value) == lower(email.value))
  }

  /** No two live guests share an email in normal form. */
  ghost predicate EmailsUnique(lower: string -> string, rows: Rows) {
    forall a, b ::
      a in Live(rows) && b in Live(rows) && a != b && rows.guests[a].email.Some? && rows.guests[b].email.Some? ==>
        Normal(lower, rows.guests[a].email.value) != Normal(lower, rows.guests[b].email.value)
  }

  /** Every stored email, an archived guest's included, has no blanks around it. */
  ghost predicate EmailsTrimmed(rows: Rows) {
    forall g :: g in rows.guests && rows.guests[g].email.Some? ==>
        Trim(rows.guests[g].email.value) == rows.guests[g].email.value
  }

  // ── Writes ──

  datatype Member = Member(guestId: Id, inviteId: Id)

  /** The ids the database makes up for a party: new, and each its own. */
  ghost predicate FreshParty(rows: Rows, party: seq<Member>) {
    && (forall m :: 0 <= m < |party| ==> party[m].guestId !in rows.guests && party[m].inviteId !in rows.invites)
    && (forall m, n :: 0 <= m < n < |party| ==>
        party[m].guestId != party[n].guestId && party[m].inviteId != party[n].inviteId)
  }

  function WithGuest(rows: Rows, member: Member, guest: Guest, status: InviteStatus): Rows {
    Rows(rows.guests[member.guestId := guest], rows.invites[member.inviteId := Invite(member.guestId, false, status)])
  }

  /** The first n of a party: the registrant, then their plus-ones, each accepted. */
  function WithParty(rows: Rows, party: seq<Member>, email: Email, n: nat): Rows
    requires n <= |party|
  {
    if n == 0 then rows
    else
      var guest := if n == 1 then Guest(Some(email), false, None, true)
                   else Guest(None, false, Some(party[0].guestId), false);
      WithGuest(WithParty(rows, party, email, n - 1), party[n - 1], guest, ACCEPTED)
  }

  function Plus(seats: Seats, primary: nat, registered: nat): Seats {
    Seats(seats.primaryGuests + primary, seats.registeredSeats + registered, seats.totalGuests + 1)
  }

  lemma {:induction false} OneMore(before: set<Id>, after: set<Id>, x: Id, joins: bool)
    requires x !in before && after == before + (if joins then {x} else {})
    ensures |after| == |before| + if joins then 1 else 0
  {
  }

  lemma {:induction false} CountsFromSets(rows: Rows, after: Rows, x: Id, primary: bool, registrant: bool,
      plusOne: bool)
    requires x !in rows.guests
    requires Live(after) == Live(rows) + {x}
    requires Primary(after) == Primary(rows) + (if primary then {x} else {})
    requires Registrants(after) == Registrants(rows) + (if registrant then {x} else {})
    requires RegistrantPlusOnes(after) == RegistrantPlusOnes(rows) + (if plusOne then {x} else {})
    ensures CountSeats(after) ==
              Plus(CountSeats(rows), if primary then 1 else 0, (if registrant then 1 else 0) + if plusOne then 1 else 0)
  {
    OneMore(Live(rows), Live(after), x, true);
    OneMore(Primary(rows), Primary(after), x, primary);
    OneMore(Registrants(rows), Registrants(after), x, registrant);
    OneMore(RegistrantPlusOnes(rows), RegistrantPlusOnes(after), x, plusOne);
  }

  lemma {:induction false} NewPrimarySets(rows: Rows, member: Member, guest: Guest, status: InviteStatus)
    requires KeysHold(rows) && member.guestId !in rows.guests && member.inviteId !in rows.invites
    requires !guest.isArchived && guest.host.None?
    ensures var after := WithGuest(rows, member, guest, status);
            && KeysHold(after)
            && Live(after) == Live(rows) + {member.guestId}
            && Primary(after) == Primary(rows) + {member.guestId}
            && Registrants(after) == Registrants(rows)
                + (if guest.selfRegistered && status != DECLINED then {member.guestId} else {})
            && RegistrantPlusOnes(after) == RegistrantPlusOnes(rows)
  {
    SeatOfNew(rows, member, guest, status);
  }

  lemma {:induction false} NewPlusOneIsNoRegistrant(rows: Rows, member: Member, guest: Guest, status: InviteStatus)
    requires KeysHold(rows) && member.guestId !in rows.guests && member.inviteId !in rows.invites && guest.host.Some?
    ensures Registrants(WithGuest(rows, member, guest, status)) == Registrants(rows)
  {
    SeatOfNew(rows, member, guest, status);
  }

  lemma {:induction false} NewPlusOneSets(rows: Rows, member: Member, guest: Guest, status: InviteStatus)
    requires KeysHold(rows) && member.guestId !in rows.guests && member.inviteId !in rows.invites
    requires !guest.isArchived && guest.host.Some? && guest.host.value in rows.guests
    ensures var after := WithGuest(rows, member, guest, status);
            var host := rows.guests[guest.host.value];
            && KeysHold(after)
            && Live(after) == Live(rows) + {member.guestId}
            && Primary(after) == Primary(rows)
            && RegistrantPlusOnes(after) ==
               RegistrantPlusOnes(rows) + (if !host.isArchived && host.selfRegistered then {member.guestId} else {})
  {
  }

  lemma {:induction false} NewPrimaryCounts(rows: Rows, member: Member, guest: Guest, status: InviteStatus)
    requires KeysHold(rows) && member.guestId !in rows.guests && member.inviteId !in rows.invites
    requires !guest.isArchived && guest.host.None?
    ensures var after := WithGuest(rows, member, guest, status);
            && KeysHold(after)
            && CountSeats(after) == Plus(CountSeats(rows), 1, if guest.selfRegistered && status != DECLINED then 1
                                         else 0)
  {
    NewPrimarySets(rows, member, guest, status);
    CountsFromSets(rows, WithGuest(rows, member, guest, status), member.guestId, true, guest.selfRegistered &&
                   status != DECLINED, false);
  }

  lemma {:induction false} NewPlusOneCounts(rows: Rows, member: Member, guest: Guest, status: InviteStatus)
    requires KeysHold(rows) && member.guestId !in rows.guests && member.inviteId !in rows.invites
    requires !guest.isArchived && guest.host.Some? && guest.host.value in rows.guests
    ensures var after := WithGuest(rows, member, guest, status);
            var host := rows.guests[guest.host.value];
            && KeysHold(after)
            && CountSeats(after) == Plus(CountSeats(rows), 0, if !host.isArchived && host.selfRegistered then 1 else 0)
  {
    var host := rows.guests[guest.host.value];
    NewPlusOneSets(rows, member, guest, status);
    NewPlusOneIsNoRegistrant(rows, member, guest, status);
    CountsFromSets(rows, WithGuest(rows, member, guest, status), member.guestId, false, false, !host.isArchived &&
                   host.selfRegistered);
  }

  /** A new invite is its own guest's, and changes no one else's seat. */
  lemma {:induction false} SeatOfNew(rows: Rows, member: Member, guest: Guest, status: InviteStatus)
    requires KeysHold(rows) && member.guestId !in rows.guests && member.inviteId !in rows.invites
    ensures var after := WithGuest(rows, member, guest, status);
            && HasSeat(after, member.guestId) == (status != DECLINED)
            && (forall g :: g in rows.guests ==> HasSeat(after, g) == HasSeat(rows, g))
  {
    var after := WithGuest(rows, member, guest, status);
    if status != DECLINED {
      assert after.invites[member.inviteId].guest == member.guestId;
    }
    forall g | g in rows.guests && HasSeat(rows, g) ensures HasSeat(after, g) {
      var i :| i in rows.invites && rows.invites[i].guest == g && !rows.invites[i].isArchived &&
          rows.invites[i].status != DECLINED;
      assert after.invites[i] == rows.invites[i];
    }
  }

  lemma {:induction false} PartySoFar(rows: Rows, party: seq<Member>, email: Email, n: nat)
    requires FreshParty(rows, party) && n <= |party|
    ensures var after := WithParty(rows, party, email, n);
            && (forall m :: n <= m < |party| ==>
                party[m].guestId !in after.guests && party[m].inviteId !in after.invites)
            && (n > 0 ==>
                  && party[0].guestId in after.guests
                  && after.guests[party[0].guestId] == Guest(Some(email), false, None, true))
  {
    if n > 0 {
      PartySoFar(rows, party, email, n - 1);
    }
  }

  function PlusParty(seats: Seats, size: nat): Seats {
    Seats(seats.primaryGuests + (if size > 0 then 1 else 0), seats.registeredSeats + size, seats.totalGuests + size)
  }

  lemma {:induction false} PartyKeepsKeys(rows: Rows, party: seq<Member>, email: Email, n: nat)
    requires KeysHold(rows) && FreshParty(rows, party) && n <= |party|
    ensures KeysHold(WithParty(rows, party, email, n))
  {
    if n > 0 {
      PartyKeepsKeys(rows, party, email, n - 1);
      PartySoFar(rows, party, email, n - 1);
    }
  }

  lemma {:induction false} NextOfParty(rows: Rows, party: seq<Member>, email: Email, n: nat)
    requires KeysHold(rows) && FreshParty(rows, party) && 0 < n <= |party|
    ensures CountSeats(WithParty(rows, party, email, n)) ==
              Plus(CountSeats(WithParty(rows, party, email, n - 1)), if n == 1 then 1 else 0, 1)
  {
    var before := WithParty(rows, party, email, n - 1);
    PartySoFar(rows, party, email, n - 1);
    PartyKeepsKeys(rows, party, email, n - 1);
    if n == 1 {
      NewPrimaryCounts(before, party[0], Guest(Some(email), false, None, true), ACCEPTED);
    } else {
      NewPlusOneCounts(before, party[n - 1], Guest(None, false, Some(party[0].guestId), false), ACCEPTED);
    }
  }

  /** Adding a party raises the registered and total seats by its size, and the primary guests by one. */
  lemma {:induction false} PartyCounts(rows: Rows, party: seq<Member>, email: Email, n: nat)
    requires KeysHold(rows) && FreshParty(rows, party) && n <= |party|
    ensures CountSeats(WithParty(rows, party, email, n)) == PlusParty(CountSeats(rows), n)
  {
    if n > 0 {
      PartyCounts(rows, party, email, n - 1);
      NextOfParty(rows, party, email, n);
    }
  }

  class GuestTables {
    var rows: Rows

    constructor (rows: Rows)
      ensures this.rows == rows
    {
      this.rows := rows;
    }

    /** The registrant first, then each plus-one hosted by them. */
    method CreateRegistrant(party: seq<Member>, email: Email)
      requires party != []
      modifies this
      ensures rows == WithParty(old(rows), party, email, |party|)
    {
      var registrant := party[0];
      rows := WithGuest(rows, registrant, Guest(Some(email), false, None, true), ACCEPTED);
      for n := 1 to |party|
        invariant rows == WithParty(old(rows), party, email, n)
      {
        rows := WithGuest(rows, party[n], Guest(None, false, Some(registrant.guestId), false), ACCEPTED);
      }
    }
  }
}
