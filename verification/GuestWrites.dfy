/** What adding guests leaves: exactly the new rows, and every other as it was. */
module GuestWrites {
  import opened Prelude
  import opened GuestRows

  ghost predicate IsGuestOf(members: seq<Member>, n: nat, g: Id) {
    exists m :: 0 <= m < n && m < |members| && members[m].guestId == g
  }

  ghost predicate IsInviteOf(members: seq<Member>, n: nat, i: Id) {
    exists m :: 0 <= m < n && m < |members| && members[m].inviteId == i
  }

  /** The first n are guests, as given, and no other guest changes. */
  ghost predicate GuestsAdded(
    before: map<Id, Guest>, after: map<Id, Guest>, members: seq<Member>, guests: seq<Guest>, n: nat)
    requires n <= |members| == |guests|
  {
    && (forall g :: g in after <==> g in before || IsGuestOf(members, n, g))
    && (forall g :: g in before ==> g in after && after[g] == before[g])
    && (forall m :: 0 <= m < n ==> members[m].guestId in after && after[members[m].guestId] == guests[m])
  }

  /** And each has a live invite of their own. */
  ghost predicate InvitesAdded(
    before: map<Id, Invite>, after: map<Id, Invite>, members: seq<Member>, status: InviteStatus, n: nat)
    requires n <= |members|
  {
    && (forall i :: i in after <==> i in before || IsInviteOf(members, n, i))
    && (forall i :: i in before ==> i in after && after[i] == before[i])
    && (forall m :: 0 <= m < n ==>
          members[m].inviteId in after && after[members[m].inviteId] == Invite(members[m].guestId, false, status))
  }

  ghost predicate RowsAdded(
    rows: Rows, after: Rows, members: seq<Member>, guests: seq<Guest>, status: InviteStatus, n: nat)
    requires n <= |members| == |guests|
  {
    && GuestsAdded(rows.guests, after.guests, members, guests, n)
    && InvitesAdded(rows.invites, after.invites, members, status, n)
  }

  lemma {:induction false} NextIsNew(rows: Rows, members: seq<Member>, n: nat)
    requires FreshParty(rows, members) && n < |members|
    ensures members[n].guestId !in rows.guests && members[n].inviteId !in rows.invites
    ensures forall m :: 0 <= m < n ==>
              members[m].guestId != members[n].guestId && members[m].inviteId != members[n].inviteId
    ensures forall g :: IsGuestOf(members, n + 1, g) <==> IsGuestOf(members, n, g) || g == members[n].guestId
    ensures forall i :: IsInviteOf(members, n + 1, i) <==> IsInviteOf(members, n, i) || i == members[n].inviteId
  {
    assert IsGuestOf(members, n + 1, members[n].guestId) && IsInviteOf(members, n + 1, members[n].inviteId);
  }

  lemma {:induction false} OneMoreGuest(
    before: map<Id, Guest>, soFar: map<Id, Guest>, members: seq<Member>, guests: seq<Guest>, n: nat)
    requires n < |members| == |guests| && GuestsAdded(before, soFar, members, guests, n)
    requires members[n].guestId !in before
    requires forall m :: 0 <= m < n ==> members[m].guestId != members[n].guestId
    requires forall g :: IsGuestOf(members, n + 1, g) <==> IsGuestOf(members, n, g) || g == members[n].guestId
    ensures GuestsAdded(before, soFar[members[n].guestId := guests[n]], members, guests, n + 1)
  {
  }

  lemma {:induction false} OneMoreInvite(
    before: map<Id, Invite>, soFar: map<Id, Invite>, members: seq<Member>, status: InviteStatus, n: nat)
    requires n < |members| && InvitesAdded(before, soFar, members, status, n) && members[n].inviteId !in before
    requires forall m :: 0 <= m < n ==> members[m].inviteId != members[n].inviteId
    requires forall i :: IsInviteOf(members, n + 1, i) <==> IsInviteOf(members, n, i) || i == members[n].inviteId
    ensures InvitesAdded(before, soFar[members[n].inviteId := Invite(members[n].guestId, false, status)], members,
                         status, n + 1)
  {
  }

  lemma {:induction false} OneMoreAdded(
    rows: Rows, soFar: Rows, members: seq<Member>, guests: seq<Guest>, status: InviteStatus, n: nat)
    requires n < |members| == |guests| && FreshParty(rows, members)
    requires RowsAdded(rows, soFar, members, guests, status, n)
    ensures RowsAdded(rows, WithGuest(soFar, members[n], guests[n], status), members, guests, status, n + 1)
  {
    NextIsNew(rows, members, n);
    OneMoreGuest(rows.guests, soFar.guests, members, guests, n);
    OneMoreInvite(rows.invites, soFar.invites, members, status, n);
  }

  lemma {:induction false} NoneAdded(rows: Rows, members: seq<Member>, guests: seq<Guest>, status: InviteStatus)
    requires |members| == |guests|
    ensures RowsAdded(rows, rows, members, guests, status, 0)
  {
  }

  lemma {:induction false} AddedIsNew(
    rows: Rows, after: Rows, members: seq<Member>, guests: seq<Guest>, status: InviteStatus)
    requires |members| == |guests| && members != [] && FreshParty(rows, members)
    requires RowsAdded(rows, after, members, guests, status, |members|)
    ensures after != rows
  {
    assert members[0].guestId !in rows.guests;
  }

  // ── A party ──

  /** A registrant by their email, and their plus-ones. */
  function PartyGuests(party: seq<Member>, email: Email): seq<Guest>
    requires party != []
  {
    seq(|party|, m requires 0 <= m < |party| =>
      if m == 0 then Guest(Some(email), false, None, true) else Guest(None, false, Some(party[0].guestId), false))
  }

  lemma {:induction false} WithOneMore(rows: Rows, party: seq<Member>, email: Email, n: nat)
    requires n < |party|
    ensures WithParty(rows, party, email, n + 1) ==
              WithGuest(WithParty(rows, party, email, n), party[n], PartyGuests(party, email)[n], ACCEPTED)
  {
  }

  lemma {:induction false} PartyIsAdded(rows: Rows, party: seq<Member>, email: Email, n: nat)
    requires party != [] && FreshParty(rows, party) && n <= |party|
    ensures RowsAdded(rows, WithParty(rows, party, email, n), party, PartyGuests(party, email), ACCEPTED, n)
    decreases n
  {
    if n == 0 {
      NoneAdded(rows, party, PartyGuests(party, email), ACCEPTED);
    } else {
      var k := n - 1;
      PartyIsAdded(rows, party, email, k);
      OneMoreAdded(rows, WithParty(rows, party, email, k), party, PartyGuests(party, email), ACCEPTED, k);
      WithOneMore(rows, party, email, k);
    }
  }

  // ── Seats let go ──

  /** A guest archived leaves every count, and their plus-ones no longer count as a registrant's. */
  lemma {:induction false} ArchivingFreesSeats(rows: Rows, after: Rows, g: Id)
    requires KeysHold(rows) && g in rows.guests
    requires after == rows.(guests := rows.guests[g := rows.guests[g].(isArchived := true)])
    ensures Live(after) == Live(rows) - {g} && Primary(after) == Primary(rows) - {g}
    ensures Registrants(after) == Registrants(rows) - {g}
    ensures RegistrantPlusOnes(after) ==
              RegistrantPlusOnes(rows) - {g} - (set p | p in rows.guests && rows.guests[p].host == Some(g))
  {
    forall x ensures HasSeat(after, x) == HasSeat(rows, x) {
    }
  }

  /** A registrant who declines lets their own seat go, and no one else's. */
  lemma {:induction false} DecliningFreesASeat(rows: Rows, after: Rows, i: Id)
    requires i in rows.invites && after == rows.(invites := rows.invites[i := rows.invites[i].(status := DECLINED)])
    requires forall j :: j in rows.invites && j != i ==> rows.invites[j].guest != rows.invites[i].guest
    ensures Registrants(after) == Registrants(rows) - {rows.invites[i].guest}
    ensures RegistrantPlusOnes(after) == RegistrantPlusOnes(rows) && Primary(after) == Primary(rows)
  {
    forall x | x != rows.invites[i].guest ensures HasSeat(after, x) == HasSeat(rows, x) {
      if HasSeat(rows, x) {
        var j :| j in rows.invites && rows.invites[j].guest == x && !rows.invites[j].isArchived &&
            rows.invites[j].status != DECLINED;
        assert after.invites[j] == rows.invites[j];
      }
    }
  }

  /** As does one whose invite is archived. */
  lemma {:induction false} ArchivedInviteFreesASeat(rows: Rows, after: Rows, i: Id)
    requires i in rows.invites && after == rows.(invites := rows.invites[i := rows.invites[i].(isArchived := true)])
    requires forall j :: j in rows.invites && j != i ==> rows.invites[j].guest != rows.invites[i].guest
    ensures Registrants(after) == Registrants(rows) - {rows.invites[i].guest}
  {
    forall x | x != rows.invites[i].guest ensures HasSeat(after, x) == HasSeat(rows, x) {
      if HasSeat(rows, x) {
        var j :| j in rows.invites && rows.invites[j].guest == x && !rows.invites[j].isArchived &&
            rows.invites[j].status != DECLINED;
        assert after.invites[j] == rows.invites[j];
      }
    }
  }
}
