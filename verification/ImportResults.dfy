/** What an import promises about the guests it takes and the rows it turns
    away, and what importing the same file again does. */
module ImportResults {
  import opened Prelude
  import opened Text
  import opened GuestRows
  import opened GuestContacts
  import opened ImportRows
  import opened GuestImport

  /** How many of the first n rows are taken. */
  function TakenCount(gs: Guests, rows: seq<Checked>, n: nat): nat
    requires n <= |rows|
  {
    if n == 0 then 0 else TakenCount(gs, rows, n - 1) + if Verdict(gs, rows, n - 1).Ok? then 1 else 0
  }

  function FailureOf(gs: Guests, rows: seq<Checked>, k: nat): Failure
    requires k < |rows| && Verdict(gs, rows, k).Err?
  {
    Failure(rows[k].row, rows[k].shown, Verdict(gs, rows, k).error)
  }

  lemma {:induction false} Counted(gs: Guests, rows: seq<Checked>, n: nat)
    requires n <= |rows|
    ensures |Accepted(gs, rows, n)| == TakenCount(gs, rows, n) <= n
    ensures |Failed(gs, rows, n)| == n - TakenCount(gs, rows, n)
  {
    if n > 0 {
      Counted(gs, rows, n - 1);
    }
  }

  lemma {:induction false} StaysInPlace(gs: Guests, rows: seq<Checked>, k: nat, n: nat)
    requires k <= n <= |rows|
    ensures Accepted(gs, rows, k) <= Accepted(gs, rows, n)
    ensures Failed(gs, rows, k) <= Failed(gs, rows, n)
  {
    if k < n {
      StaysInPlace(gs, rows, k, n - 1);
    }
  }

  /** Every row of the file is in exactly one of the two lists, and both keep
      the file's order: a row taken stands after just the rows taken before it,
      a row turned away after just the rows turned away before it. */
  lemma {:induction false} EveryRowOnceInOrder(gs: Guests, rows: seq<Checked>, k: nat)
    requires k < |rows|
    ensures |Accepted(gs, rows, |rows|)| + |Failed(gs, rows, |rows|)| == |rows|
    ensures TakenCount(gs, rows, k) <= k
    ensures match Verdict(gs, rows, k)
            case Ok(guest) =>
              TakenCount(gs, rows, k) < |Accepted(gs, rows, |rows|)| &&
                  Accepted(gs, rows, |rows|)[TakenCount(gs, rows, k)] == guest
            case Err(_) =>
              && k - TakenCount(gs, rows, k) < |Failed(gs, rows, |rows|)|
              && Failed(gs, rows, |rows|)[k - TakenCount(gs, rows, k)] == FailureOf(gs, rows, k)
  {
    Counted(gs, rows, |rows|);
    Counted(gs, rows, k);
    Counted(gs, rows, k + 1);
    StaysInPlace(gs, rows, k + 1, |rows|);
  }

  /** No two guests taken share an email in normal form or a phone, and no
      guest on the event has a taken email. */
  lemma {:induction false} TakenContactsAreNew(gs: Guests, rows: seq<Checked>, n: nat, m: nat)
    requires n <= |rows| && m < |Accepted(gs, rows, n)|
    ensures !EmailHeld(gs.lower, gs.existing, Accepted(gs, rows, n)[m].email)
    ensures forall l :: 0 <= l < m ==> !SameContact(gs, Accepted(gs, rows, n)[l], Accepted(gs, rows, n)[m])
  {
    if m < |Accepted(gs, rows, n - 1)| {
      TakenContactsAreNew(gs, rows, n - 1, m);
    } else {
      forall l | 0 <= l < m ensures !SameContact(gs, Accepted(gs, rows, n)[l], Accepted(gs, rows, n)[m]) {
        var j := AcceptedComesFrom(gs, rows, n - 1, l);
        assert !Twins(gs, rows[j], rows[n - 1]);
      }
    }
  }

  /** A row turned away as also on another row names an earlier row that was
      taken, with the same contact. */
  lemma {:induction false} AlsoOnRowNamesATakenRow(gs: Guests, rows: seq<Checked>, k: nat)
    requires k < |rows| && OneContactEach(rows) && Verdict(gs, rows, k).Err? && Verdict(gs, rows, k).error.AlsoOnRow?
    requires rows[k].own.Ok?
    ensures exists j :: 0 <= j < k && Verdict(gs, rows, j) == rows[j].own && Twins(gs, rows[j], rows[k])
                        && Verdict(gs, rows, k).error == AlsoOnRow(Digits(rows[j].row))
  {
    FirstTwinIsTaken(gs, rows, k);
    var j := FirstTwin(gs, rows, rows[k], k).value;
    assert Verdict(gs, rows, j) == rows[j].own && Twins(gs, rows[j], rows[k]);
  }

  // ── The same file again ──

  /** The event's guests once the file is in: those from before and everyone taken. */
  ghost predicate HoldsAll(gs: Guests, taken: seq<NewGuest>, later: seq<Contact>) {
    && (forall email :: EmailHeld(gs.lower, gs.existing, email) ==> EmailHeld(gs.lower, later, email))
    && (forall m :: 0 <= m < |taken| ==> taken[m].email.Some? ==> EmailHeld(gs.lower, later, taken[m].email))
  }

  lemma {:induction false} HeldInNormalForm(lower: string -> string, contacts: seq<Contact>, one: string, other: string)
    requires Normal(lower, one) == Normal(lower, other) && other != "" && EmailHeld(lower, contacts, Some(one))
    ensures EmailHeld(lower, contacts, Some(other))
  {
    var k :| 0 <= k < |contacts| && SameEmail(lower, contacts[k].email, one);
    assert SameEmail(lower, contacts[k].email, other);
  }

  lemma {:induction false} EmailRowIsHeldAfter(gs: Guests, rows: seq<Checked>, later: seq<Contact>, k: nat)
    requires k < |rows| && OneContactEach(rows) && HoldsAll(gs, Accepted(gs, rows, |rows|), later)
    requires rows[k].own.Ok? && rows[k].own.value.email.Some?
    ensures EmailHeld(gs.lower, later, rows[k].own.value.email)
  {
    if !EmailHeld(gs.lower, gs.existing, rows[k].own.value.email) {
      var taken := if FirstTwin(gs, rows, rows[k], k).Some? then FirstTwin(gs, rows, rows[k], k).value else k;
      if taken < k {
        FirstTwinIsTaken(gs, rows, k);
      }
      var m := AcceptedHas(gs, rows, |rows|, taken);
      HeldInNormalForm(gs.lower, later, rows[taken].own.value.email.value, rows[k].own.value.email.value);
    }
  }

  lemma {:induction false} SameTwin(gs: Guests, rows: seq<Checked>, later: seq<Contact>, row: Checked, n: nat)
    requires n <= |rows|
    ensures FirstTwin(Guests(gs.lower, later), rows, row, n) == FirstTwin(gs, rows, row, n)
  {
    if n > 0 {
      SameTwin(gs, rows, later, row, n - 1);
    }
  }

  /** Checked again with the guests it made in place, every email row that
      passed its own checks is a duplicate of a guest on the event, and every
      other row is judged just as before. */
  lemma {:induction false} JudgedAgain(gs: Guests, rows: seq<Checked>, later: seq<Contact>, k: nat)
    requires k < |rows| && OneContactEach(rows) && HoldsAll(gs, Accepted(gs, rows, |rows|), later)
    ensures Verdict(Guests(gs.lower, later), rows, k) ==
            if rows[k].own.Ok? && rows[k].own.value.email.Some? then Err(AlreadyOnEvent) else Verdict(gs, rows, k)
  {
    if rows[k].own.Ok? {
      if rows[k].own.value.email.Some? {
        EmailRowIsHeldAfter(gs, rows, later, k);
      } else {
        SameTwin(gs, rows, later, rows[k], k);
      }
    }
  }

  function PhoneRows(guests: seq<NewGuest>): seq<NewGuest> {
    if guests == [] then []
    else PhoneRows(guests[..|guests| - 1]) + if guests[|guests| - 1].phone.Some? then [guests[|guests| - 1]] else []
  }

  lemma {:induction false} PhoneRowsOfMore(guests: seq<NewGuest>, guest: NewGuest)
    ensures PhoneRows(guests + [guest]) == PhoneRows(guests) + if guest.phone.Some? then [guest] else []
  {
    assert (guests + [guest])[..|guests|] == guests;
  }

  lemma {:induction false} AcceptedNext(gs: Guests, rows: seq<Checked>, n: nat)
    requires 0 < n <= |rows|
    ensures match Verdict(gs, rows, n - 1)
            case Ok(guest) => Accepted(gs, rows, n) == Accepted(gs, rows, n - 1) + [guest]
            case Err(_) => Accepted(gs, rows, n) == Accepted(gs, rows, n - 1)
  {
  }

  /** Importing the same file again takes exactly the phone rows taken before:
      a phone is never looked for among the event's guests. */
  lemma {:induction false} ImportedAgain(gs: Guests, rows: seq<Checked>, later: seq<Contact>, n: nat)
    requires n <= |rows| && OneContactEach(rows) && HoldsAll(gs, Accepted(gs, rows, |rows|), later)
    ensures Accepted(Guests(gs.lower, later), rows, n) == PhoneRows(Accepted(gs, rows, n))
  {
    if n > 0 {
      ImportedAgain(gs, rows, later, n - 1);
      JudgedAgain(gs, rows, later, n - 1);
      AcceptedNext(gs, rows, n);
      AcceptedNext(Guests(gs.lower, later), rows, n);
      if Verdict(gs, rows, n - 1).Ok? {
        assert OneContact(rows[n - 1].own.value);
        PhoneRowsOfMore(Accepted(gs, rows, n - 1), Verdict(gs, rows, n - 1).value);
      }
    }
  }

  /** The guests the import writes: each email as checked. */
  function Written(guests: seq<NewGuest>, ids: seq<Id>): seq<Contact>
    requires |ids| == |guests|
  {
    seq(|guests|, m requires 0 <= m < |guests| => Contact(ids[m], guests[m].email))
  }

  lemma {:induction false} WrittenHoldsAll(gs: Guests, rows: seq<Checked>, ids: seq<Id>)
    requires OneContactEach(rows) && |ids| == |Accepted(gs, rows, |rows|)|
    ensures HoldsAll(gs, Accepted(gs, rows, |rows|), gs.existing + Written(Accepted(gs, rows, |rows|), ids))
  {
    var taken := Accepted(gs, rows, |rows|);
    var later := gs.existing + Written(taken, ids);
    forall email | EmailHeld(gs.lower, gs.existing, email) ensures EmailHeld(gs.lower, later, email) {
      var k :| 0 <= k < |gs.existing| && SameEmail(gs.lower, gs.existing[k].email, email.value);
      assert later[k] == gs.existing[k];
    }
    forall m | 0 <= m < |taken| && taken[m].email.Some? ensures EmailHeld(gs.lower, later, taken[m].email) {
      var j := AcceptedComesFrom(gs, rows, |rows|, m);
      assert later[|gs.existing| + m] == Contact(ids[m], taken[m].email);
      assert SameEmail(gs.lower, later[|gs.existing| + m].email, taken[m].email.value);
    }
  }

  lemma {:induction false} CheckedAlike(ev: Event, later: seq<Contact>, rows: seq<Row>)
    ensures CheckedRows(ev.(existing := later), rows) == CheckedRows(ev, rows)
  {
    forall k | 0 <= k < |rows| ensures OwnCheck(ev.(existing := later), rows[k]) == OwnCheck(ev, rows[k]) {
      assert DayKeys(ev.(existing := later)) == DayKeys(ev);
    }
  }

  /** The whole of it: import a file, write the guests taken, import it again. */
  lemma {:induction false} SameFileAgain(ev: Event, rows: seq<Row>, ids: seq<Id>)
    requires |ids| == |Outcome(ev, rows).0|
    ensures var taken := Outcome(ev, rows).0;
            Outcome(ev.(existing := ev.existing + Written(taken, ids)), rows).0 == PhoneRows(taken)
  {
    var gs, checked := Guests(ev.lower, ev.existing), CheckedRows(ev, rows);
    var later := ev.existing + Written(Accepted(gs, checked, |rows|), ids);
    CheckedRowsHaveOne(ev, rows);
    WrittenHoldsAll(gs, checked, ids);
    CheckedAlike(ev, later, rows);
    ImportedAgain(gs, checked, later, |rows|);
  }
}
