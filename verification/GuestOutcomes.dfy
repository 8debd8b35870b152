/** Exactly which additions, restores, plus-ones and email changes are let by,
    and what each leaves. */
module GuestOutcomes {
  import opened Prelude
  import opened GuestRows
  import opened GuestWrites
  import opened GuestRuns

  /** There is room for this many more: under the plan's limit, where they count towards it, and the ceiling. */
  predicate HasRoom(rows: Rows, guestLimit: Option<nat>, count: nat, primary: bool) {
    && (primary && guestLimit.Some? ==> |Primary(rows)| + count <= guestLimit.value)
    && |Live(rows)| + count <= 5000
  }

  lemma {:induction false} RoomExactly(rows: Rows, guestLimit: Option<nat>, count: nat, primary: bool)
    ensures Creatable(rows, guestLimit, count, primary) <==> HasRoom(rows, guestLimit, count, primary)
  {
  }

  // ── Additions ──

  /** The email, case aside, is a live guest's. */
  ghost predicate IsTaken(lower: string -> string, rows: Rows, email: Email) {
    exists g ::
      && g in rows.guests && !rows.guests[g].isArchived && rows.guests[g].email.Some?
      && lower(rows.guests[g].email.value) == lower(email)
  }

  /** Neither a live guest nor an earlier one of the list has this one's email. */
  ghost predicate IsNewEmail(lower: string -> string, rows: Rows, newGuests: seq<NewGuest>, n: nat)
    requires n < |newGuests|
  {
    newGuests[n].email.Some? ==>
      && !IsTaken(lower, rows, newGuests[n].email.value)
      && forall m :: 0 <= m < n && newGuests[m].email.Some? ==>
           lower(newGuests[m].email.value) != lower(newGuests[n].email.value)
  }

  function GuestsOf(newGuests: seq<NewGuest>): seq<Guest> {
    seq(|newGuests|, n requires 0 <= n < |newGuests| => Guest(newGuests[n].email, false, None, false))
  }

  ghost predicate AddedSoFar(lower: string -> string, rows: Rows, newGuests: seq<NewGuest>, n: nat,
      written: Option<Rows>)
    requires n <= |newGuests|
  {
    && (written.Some? <==> forall m :: 0 <= m < n ==> IsNewEmail(lower, rows, newGuests, m))
    && (written.Some? ==> RowsAdded(rows, written.value, MembersOf(newGuests), GuestsOf(newGuests), PENDING, n))
  }

  lemma {:induction false} NotNewIsRefused(lower: string -> string, rows: Rows, soFar: Rows, newGuests: seq<NewGuest>,
      n: nat)
    requires n < |newGuests| && FreshParty(rows, MembersOf(newGuests))
    requires GuestsAdded(rows.guests, soFar.guests, MembersOf(newGuests), GuestsOf(newGuests), n)
    requires !IsNewEmail(lower, rows, newGuests, n)
    ensures IndexRefuses(lower, soFar, newGuests[n].email, newGuests[n].member.guestId)
  {
    var members, next := MembersOf(newGuests), newGuests[n];
    NextIsNew(rows, members, n);
    if IsTaken(lower, rows, next.email.value) {
      var g :| g in rows.guests && !rows.guests[g].isArchived && rows.guests[g].email.Some?
        && lower(rows.guests[g].email.value) == lower(next.email.value);
      assert soFar.guests[g] == rows.guests[g];
    } else {
      var m :| 0 <= m < n && newGuests[m].email.Some? && lower(newGuests[m].email.value) == lower(next.email.value);
      assert soFar.guests[members[m].guestId] == GuestsOf(newGuests)[m];
    }
  }

  lemma {:induction false} RefusedIsNotNew(lower: string -> string, rows: Rows, soFar: Rows, newGuests: seq<NewGuest>,
      n: nat)
    requires n < |newGuests|
    requires GuestsAdded(rows.guests, soFar.guests, MembersOf(newGuests), GuestsOf(newGuests), n)
    requires IndexRefuses(lower, soFar, newGuests[n].email, newGuests[n].member.guestId)
    ensures !IsNewEmail(lower, rows, newGuests, n)
  {
    var members, next := MembersOf(newGuests), newGuests[n];
    var g :| g in soFar.guests && !soFar.guests[g].isArchived && soFar.guests[g].email.Some?
      && lower(soFar.guests[g].email.value) == lower(next.email.value);
    if g !in rows.guests {
      var m :| 0 <= m < n && members[m].guestId == g;
      assert soFar.guests[g] == GuestsOf(newGuests)[m];
    }
  }

  /** With the first n added, the index refuses the next exactly when its email is not new. */
  lemma {:induction false} NextIsRefused(lower: string -> string, rows: Rows, soFar: Rows, newGuests: seq<NewGuest>,
      n: nat)
    requires n < |newGuests| && FreshParty(rows, MembersOf(newGuests))
    requires RowsAdded(rows, soFar, MembersOf(newGuests), GuestsOf(newGuests), PENDING, n)
    ensures IndexRefuses(lower, soFar, newGuests[n].email, newGuests[n].member.guestId) <==>
              !IsNewEmail(lower, rows, newGuests, n)
  {
    if IndexRefuses(lower, soFar, newGuests[n].email, newGuests[n].member.guestId) {
      RefusedIsNotNew(lower, rows, soFar, newGuests, n);
    } else if !IsNewEmail(lower, rows, newGuests, n) {
      NotNewIsRefused(lower, rows, soFar, newGuests, n);
    }
  }

  lemma {:induction false} InsertedNext(lower: string -> string, rows: Rows, newGuests: seq<NewGuest>, n: nat)
    requires n < |newGuests|
    ensures var before := Inserted(lower, rows, newGuests, n);
            Inserted(lower, rows, newGuests, n + 1) ==
            if before.None? || IndexRefuses(lower, before.value, newGuests[n].email, newGuests[n].member.guestId)
            then None
            else Some(WithGuest(before.value, MembersOf(newGuests)[n], GuestsOf(newGuests)[n], PENDING))
  {
  }

  lemma {:induction false} AddedNext(lower: string -> string, rows: Rows, newGuests: seq<NewGuest>, n: nat,
      written: Option<Rows>, next: Option<Rows>)
    requires n < |newGuests| && FreshParty(rows, MembersOf(newGuests)) && AddedSoFar(lower, rows, newGuests, n, written)
    requires next ==
             if written.None? || IndexRefuses(lower, written.value, newGuests[n].email, newGuests[n].member.guestId)
             then None else Some(WithGuest(written.value, MembersOf(newGuests)[n], GuestsOf(newGuests)[n], PENDING))
    ensures AddedSoFar(lower, rows, newGuests, n + 1, next)
  {
    if written.Some? {
      NextIsRefused(lower, rows, written.value, newGuests, n);
      OneMoreAdded(rows, written.value, MembersOf(newGuests), GuestsOf(newGuests), PENDING, n);
    }
  }

  lemma {:induction false} InsertedExactly(lower: string -> string, rows: Rows, newGuests: seq<NewGuest>, n: nat)
    requires n <= |newGuests| && FreshParty(rows, MembersOf(newGuests))
    ensures AddedSoFar(lower, rows, newGuests, n, Inserted(lower, rows, newGuests, n))
    decreases n
  {
    if n == 0 {
      NoneAdded(rows, MembersOf(newGuests), GuestsOf(newGuests), PENDING);
    } else {
      var k := n - 1;
      InsertedExactly(lower, rows, newGuests, k);
      InsertedNext(lower, rows, newGuests, k);
      AddedNext(lower, rows, newGuests, k, Inserted(lower, rows, newGuests, k),
                Inserted(lower, rows, newGuests, k + 1));
    }
  }

  /** An addition, or an import's rows, is written exactly when there is room for all of
      it and every email in it is new; then exactly those guests are added, each with a
      pending invite, and otherwise nothing is. */
  lemma {:induction false} AddedExactly(lower: string -> string, rows: Rows, newGuests: seq<NewGuest>,
      guestLimit: Option<nat>)
    requires FreshParty(rows, MembersOf(newGuests))
    ensures var after := Next(lower, rows, AddStep(newGuests, guestLimit));
            if HasRoom(rows, guestLimit, |newGuests|, true)
               && (forall n :: 0 <= n < |newGuests| ==> IsNewEmail(lower, rows, newGuests, n))
            then RowsAdded(rows, after, MembersOf(newGuests), GuestsOf(newGuests), PENDING, |newGuests|)
            else after == rows
  {
    RoomExactly(rows, guestLimit, |newGuests|, true);
    InsertedExactly(lower, rows, newGuests, |newGuests|);
  }

  // ── Restores and archives ──

  /** One guest and their invites are given this mark, and no other row changes. */
  ghost predicate IsMarked(rows: Rows, after: Rows, g: Id, isArchived: bool)
    requires g in rows.guests
  {
    && after.guests.Keys == rows.guests.Keys && after.invites.Keys == rows.invites.Keys
    && after.guests[g] == rows.guests[g].(isArchived := isArchived)
    && (forall x :: x in rows.guests && x != g ==> after.guests[x] == rows.guests[x])
    && (forall i :: i in rows.invites && rows.invites[i].guest == g ==>
          after.invites[i] == rows.invites[i].(isArchived := isArchived))
    && (forall i :: i in rows.invites && rows.invites[i].guest != g ==> after.invites[i] == rows.invites[i])
  }

  /** Some other live guest has this email, case aside. */
  ghost predicate IsAnothers(lower: string -> string, rows: Rows, g: Id, email: Option<Email>) {
    email.Some? && exists x ::
      && x != g && x in rows.guests && !rows.guests[x].isArchived && rows.guests[x].email.Some?
      && lower(rows.guests[x].email.value) == lower(email.value)
  }

  /** A restore is let by exactly when there is room for the guest, unless they were live
      when it looked, and no other live guest has their email, unless they are live
      when it writes; it brings back the guest with every invite of theirs. */
  lemma {:induction false} RestoredExactly(lower: string -> string, rows: Rows, g: Id, readArchived: bool,
      guestLimit: Option<nat>)
    requires g in rows.guests
    ensures var after := Next(lower, rows, RestoreStep(g, readArchived, guestLimit));
            var guest := rows.guests[g];
            if (readArchived ==> HasRoom(rows, guestLimit, 1, guest.host.None?))
               && (guest.isArchived ==> !IsAnothers(lower, rows, g, guest.email))
            then IsMarked(rows, after, g, false)
            else after == rows
  {
    RoomExactly(rows, guestLimit, 1, rows.guests[g].host.None?);
  }

  lemma {:induction false} ArchivedExactly(lower: string -> string, rows: Rows, g: Id)
    requires g in rows.guests
    ensures IsMarked(rows, Next(lower, rows, ArchiveStep(g)), g, true)
  {
  }

  // ── Plus-ones and emails ──

  function PlusOnesOf(host: Id, count: nat): seq<Guest> {
    seq(count, _ => Guest(None, false, Some(host), false))
  }

  lemma {:induction false} WithOneMorePlusOne(rows: Rows, host: Id, members: seq<Member>, n: nat)
    requires n < |members|
    ensures WithPlusOnes(rows, host, members, n + 1) ==
              WithGuest(WithPlusOnes(rows, host, members, n), members[n], PlusOnesOf(host, |members|)[n], ACCEPTED)
  {
  }

  lemma {:induction false} PlusOnesAreAdded(rows: Rows, host: Id, members: seq<Member>, n: nat)
    requires n <= |members| && FreshParty(rows, members)
    ensures RowsAdded(rows, WithPlusOnes(rows, host, members, n), members, PlusOnesOf(host, |members|), ACCEPTED, n)
    decreases n
  {
    var guests := PlusOnesOf(host, |members|);
    if n == 0 {
      NoneAdded(rows, members, guests, ACCEPTED);
    } else {
      var k := n - 1;
      PlusOnesAreAdded(rows, host, members, k);
      OneMoreAdded(rows, WithPlusOnes(rows, host, members, k), members, guests, ACCEPTED, k);
      WithOneMorePlusOne(rows, host, members, k);
    }
  }

  lemma {:induction false} PlusOnesStepIs(lower: string -> string, rows: Rows, host: Id, members: seq<Member>)
    ensures Next(lower, rows, PlusOnesStep(host, members)) ==
              if |Live(rows)| + |members| <= 5000 then WithPlusOnes(rows, host, members, |members|) else rows
  {
  }

  /** Plus-ones named at an RSVP are added exactly when the ceiling leaves room for all of them. */
  lemma {:induction false} PlusOnesExactly(lower: string -> string, rows: Rows, host: Id, members: seq<Member>)
    requires FreshParty(rows, members)
    ensures var after := Next(lower, rows, PlusOnesStep(host, members));
            if |Live(rows)| + |members| <= 5000
            then RowsAdded(rows, after, members, PlusOnesOf(host, |members|), ACCEPTED, |members|)
            else after == rows
  {
    PlusOnesStepIs(lower, rows, host, members);
    PlusOnesAreAdded(rows, host, members, |members|);
  }

  /** A live guest's email is changed exactly when no other live guest has it, their own,
      differently written, included; an archived one's always is. */
  lemma {:induction false} EmailChangedExactly(lower: string -> string, rows: Rows, g: Id, email: Option<Email>)
    requires g in rows.guests
    ensures var after := Next(lower, rows, ChangeEmailStep(g, email));
            if rows.guests[g].isArchived || !IsAnothers(lower, rows, g, email) then
              after == rows.(guests := rows.guests[g := rows.guests[g].(email := email)])
            else after == rows
  {
  }
}
