/** An organiser's additions, restores and archives as the guest service writes
    them, row by row in one transaction under the event's row lock. */
module GuestService {
  import opened Prelude
  import opened GuestRows
  import opened GuestRuns
  import opened GuestOutcomes

  datatype Refusal = TooManyGuests | EmailTaken

  function WithMark(rows: Rows, i: Id, isArchived: bool): Rows
    requires i in rows.invites
  {
    rows.(invites := rows.invites[i := rows.invites[i].(isArchived := isArchived)])
  }

  /** The guest's invites that are archived, or that aren't, as the query lists them. */
  ghost predicate ListsInvites(rows: Rows, g: Id, isArchived: bool, listed: seq<Id>) {
    forall i :: i in listed <==>
        i in rows.invites && rows.invites[i].guest == g && rows.invites[i].isArchived == isArchived
  }

  /** The rows once the first n listed invites have been given this mark. */
  ghost predicate MarkedUpTo(before: Rows, after: Rows, listed: seq<Id>, n: nat, isArchived: bool)
    requires n <= |listed|
  {
    && after.guests == before.guests
    && after.invites.Keys == before.invites.Keys
    && (forall i :: i in before.invites ==>
          after.invites[i] == if i in listed[..n] then before.invites[i].(isArchived := isArchived)
                              else before.invites[i])
  }

  lemma {:induction false} AllMarked(before: Rows, after: Rows, g: Id, listed: seq<Id>, isArchived: bool)
    requires ListsInvites(before, g, !isArchived, listed) && MarkedUpTo(before, after, listed, |listed|, isArchived)
    ensures after.invites ==
            map i | i in before.invites :: if before.invites[i].guest == g
                                           then before.invites[i].(isArchived := isArchived) else before.invites[i]
  {
    assert listed[..|listed|] == listed;
  }

  class GuestServiceRows {
    const lower: string -> string
    var rows: Rows

    constructor (lower: string -> string, rows: Rows)
      ensures this.lower == lower && this.rows == rows
    {
      this.lower := lower;
      this.rows := rows;
    }

    /** Each guest with their invite, and none when the unique index refuses one. */
    method InsertAll(newGuests: seq<NewGuest>) returns (inserted: bool)
      modifies this
      ensures var after := Inserted(lower, old(rows), newGuests, |newGuests|);
              inserted == after.Some? && rows == if after.Some? then after.value else old(rows)
    {
      var before := rows;
      for n := 0 to |newGuests|
        invariant Inserted(lower, before, newGuests, n) == Some(rows)
      {
        var next := newGuests[n];
        if IndexRefuses(lower, rows, next.email, next.member.guestId) {
          RefusedForGood(lower, before, newGuests, n + 1, |newGuests|);
          rows := before;
          return false;
        }
        rows := WithGuest(rows, next.member, Guest(next.email, false, None, false), PENDING);
      }
      return true;
    }

    /** One guest added, or an import's accepted rows. */
    method Add(newGuests: seq<NewGuest>, guestLimit: Option<nat>) returns (refusal: Option<Refusal>)
      modifies this
      ensures rows == Next(lower, old(rows), AddStep(newGuests, guestLimit))
      ensures refusal == (if !Creatable(old(rows), guestLimit, |newGuests|, true) then Some(TooManyGuests)
                          else if Inserted(lower, old(rows), newGuests, |newGuests|).None? then Some(EmailTaken)
                          else None)
      ensures refusal == Some(TooManyGuests) <==> !HasRoom(old(rows), guestLimit, |newGuests|, true)
      ensures FreshParty(old(rows), MembersOf(newGuests)) && refusal != Some(TooManyGuests) ==>
                (refusal.None? <==> forall n :: 0 <= n < |newGuests| ==> IsNewEmail(lower, old(rows), newGuests, n))
    {
      RoomExactly(rows, guestLimit, |newGuests|, true);
      if FreshParty(rows, MembersOf(newGuests)) {
        InsertedExactly(lower, rows, newGuests, |newGuests|);
      }
      if !Creatable(rows, guestLimit, |newGuests|, true) {
        return Some(TooManyGuests);
      }
      var inserted := InsertAll(newGuests);
      return if inserted then None else Some(EmailTaken);
    }

    /** `readArchived` is the guest as read before the lock, `listed` their archived invites. */
    method Reactivate(g: Id, readArchived: bool, listed: seq<Id>, guestLimit: Option<nat>)
        returns (refusal: Option<Refusal>)
      requires g in rows.guests && ListsInvites(rows, g, true, listed)
      modifies this
      ensures rows == Next(lower, old(rows), RestoreStep(g, readArchived, guestLimit))
      ensures refusal.None? ==> rows == Restored(old(rows), g)
      ensures refusal.Some? ==> rows == old(rows)
      ensures refusal == Some(TooManyGuests) <==>
                readArchived && !HasRoom(old(rows), guestLimit, 1, old(rows).guests[g].host.None?)
      ensures refusal == Some(EmailTaken) ==>
                old(rows).guests[g].isArchived && IsAnothers(lower, old(rows), g, old(rows).guests[g].email)
      ensures refusal.None? ==> IsMarked(old(rows), rows, g, false)
    {
      RoomExactly(rows, guestLimit, 1, rows.guests[g].host.None?);
      RestoredExactly(lower, rows, g, readArchived, guestLimit);
      var guest := rows.guests[g];
      if readArchived && !Creatable(rows, guestLimit, 1, guest.host.None?) {
        return Some(TooManyGuests);
      }
      if guest.isArchived && IndexRefuses(lower, rows, guest.email, g) {
        return Some(EmailTaken);
      }
      rows := rows.(guests := rows.guests[g := guest.(isArchived := false)]);
      ghost var marked := rows;
      for n := 0 to |listed|
        invariant MarkedUpTo(marked, rows, listed, n, false)
      {
        assert listed[..n + 1] == listed[..n] + [listed[n]];
        assert listed[n] in listed;
        rows := WithMark(rows, listed[n], false);
      }
      AllMarked(marked, rows, g, listed, false);
      return None;
    }

    /** `listed` are the guest's live invites. */
    method ArchiveGuest(g: Id, listed: seq<Id>)
      requires g in rows.guests && ListsInvites(rows, g, false, listed)
      modifies this
      ensures rows == Next(lower, old(rows), ArchiveStep(g))
    {
      rows := rows.(guests := rows.guests[g := rows.guests[g].(isArchived := true)]);
      ghost var marked := rows;
      for n := 0 to |listed|
        invariant MarkedUpTo(marked, rows, listed, n, true)
      {
        assert listed[..n + 1] == listed[..n] + [listed[n]];
        assert listed[n] in listed;
        rows := WithMark(rows, listed[n], true);
      }
      AllMarked(marked, rows, g, listed, true);
    }
  }

  lemma {:induction false} RefusedForGood(lower: string -> string, rows: Rows, newGuests: seq<NewGuest>, n: nat, m: nat)
    requires n <= m <= |newGuests| && Inserted(lower, rows, newGuests, n).None?
    ensures Inserted(lower, rows, newGuests, m).None?
  {
    if n < m {
      RefusedForGood(lower, rows, newGuests, n, m - 1);
    }
  }
}
