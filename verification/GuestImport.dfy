/** Checking an import file row by row: which rows become guests, and why each
    of the others doesn't. */
module GuestImport {
  import opened Prelude
  import opened Text
  import opened GuestRows
  import opened GuestContacts
  import opened ImportRows

  // ── What the checked rows come to, said without looking at the loop ──

  /** What duplicates are looked for among: the event's guests, and how emails compare. */
  datatype Guests = Guests(lower: string -> string, existing: seq<Contact>)

  predicate SameContact(gs: Guests, a: NewGuest, b: NewGuest) {
    || (a.email.Some? && b.email.Some? && Normal(gs.lower, a.email.value) == Normal(gs.lower, b.email.value))
    || (a.phone.Some? && a.phone == b.phone)
  }

  /** Two rows that pass their own checks with the same contact. */
  predicate Twins(gs: Guests, a: Checked, b: Checked) {
    a.own.Ok? && b.own.Ok? && SameContact(gs, a.own.value, b.own.value)
  }

  ghost predicate OneContactEach(rows: seq<Checked>) {
    forall k :: 0 <= k < |rows| && rows[k].own.Ok? ==>
        OneContact(rows[k].own.value) && rows[k].own.value.rowNumber == rows[k].row
  }

  predicate NoTwinBefore(gs: Guests, rows: seq<Checked>, row: Checked, n: nat)
    requires n <= |rows|
  {
    forall j :: 0 <= j < n ==> !Twins(gs, rows[j], row)
  }

  /** The first of the first n rows that passes its own checks with this row's contact. */
  function FirstTwin(gs: Guests, rows: seq<Checked>, row: Checked, n: nat): (r: Option<nat>)
    requires n <= |rows|
    ensures r.Some? ==> r.value < n && Twins(gs, rows[r.value], row) && NoTwinBefore(gs, rows, row, r.value)
    ensures r.None? ==> NoTwinBefore(gs, rows, row, n)
  {
    if n == 0 then None
    else
      var earlier := FirstTwin(gs, rows, row, n - 1);
      if earlier.Some? then earlier else if Twins(gs, rows[n - 1], row) then Some(n - 1) else None
  }

  /** A row is taken when it passes its own checks, no guest on the event has
      its email, and no earlier row that passes its own has the same contact. */
  function Verdict(gs: Guests, rows: seq<Checked>, k: nat): Result<NewGuest, Reason>
    requires k < |rows|
  {
    match rows[k].own
    case Err(reason) => Err(reason)
    case Ok(guest) =>
      if EmailHeld(gs.lower, gs.existing, guest.email) then Err(AlreadyOnEvent)
      else
        match FirstTwin(gs, rows, rows[k], k)
        case Some(j) => Err(AlsoOnRow(Digits(rows[j].row)))
        case None => Ok(guest)
  }

  /** A guest of the event has this email, blanks around it and case aside. */
  ghost predicate IsOnEvent(gs: Guests, guest: NewGuest) {
    guest.email.Some? && exists k ::
      && 0 <= k < |gs.existing| && gs.existing[k].email.Some? && gs.existing[k].email.value != ""
      && gs.lower(Trim(gs.existing[k].email.value)) == gs.lower(Trim(guest.email.value))
  }

  /** Two rows have one email, blanks around it and case aside, or one phone. */
  predicate HaveOneContact(gs: Guests, a: NewGuest, b: NewGuest) {
    || (a.email.Some? && b.email.Some? && gs.lower(Trim(a.email.value)) == gs.lower(Trim(b.email.value)))
    || (a.phone.Some? && b.phone.Some? && a.phone.value == b.phone.value)
  }

  /** Row j is the first before row k that passes its own checks with row k's contact. */
  ghost predicate IsFirstTwin(gs: Guests, rows: seq<Checked>, k: nat, j: int)
    requires k < |rows| && rows[k].own.Ok?
  {
    && 0 <= j < k && rows[j].own.Ok? && HaveOneContact(gs, rows[j].own.value, rows[k].own.value)
    && forall i :: 0 <= i < j && rows[i].own.Ok? ==> !HaveOneContact(gs, rows[i].own.value, rows[k].own.value)
  }

  /** What a row that passes its own checks comes to: on the event already, also on an
      earlier row, which it names, or taken. */
  lemma {:induction false} VerdictExactly(gs: Guests, rows: seq<Checked>, k: nat)
    requires k < |rows| && rows[k].own.Ok? && (rows[k].own.value.email.Some? ==> rows[k].own.value.email.value != "")
    ensures var guest := rows[k].own.value;
            if IsOnEvent(gs, guest) then Verdict(gs, rows, k) == Err(AlreadyOnEvent)
            else if exists j :: IsFirstTwin(gs, rows, k, j) then
              exists j :: IsFirstTwin(gs, rows, k, j) && Verdict(gs, rows, k) == Err(AlsoOnRow(Digits(rows[j].row)))
            else Verdict(gs, rows, k) == Ok(guest)
  {
    var guest := rows[k].own.value;
    if IsOnEvent(gs, guest) {
      var i :| 0 <= i < |gs.existing| && gs.existing[i].email.Some? && gs.existing[i].email.value != ""
        && gs.lower(Trim(gs.existing[i].email.value)) == gs.lower(Trim(guest.email.value));
      assert SameEmail(gs.lower, gs.existing[i].email, guest.email.value);
    }
    forall i | 0 <= i < k
      ensures Twins(gs, rows[i], rows[k]) <==> rows[i].own.Ok? && HaveOneContact(gs, rows[i].own.value, guest)
    {
    }
    var twin := FirstTwin(gs, rows, rows[k], k);
    if twin.Some? {
      assert IsFirstTwin(gs, rows, k, twin.value);
    }
  }

  function Accepted(gs: Guests, rows: seq<Checked>, n: nat): seq<NewGuest>
    requires n <= |rows|
  {
    if n == 0 then []
    else
      var verdict := Verdict(gs, rows, n - 1);
      Accepted(gs, rows, n - 1) + if verdict.Ok? then [verdict.value] else []
  }

  function Failed(gs: Guests, rows: seq<Checked>, n: nat): seq<Failure>
    requires n <= |rows|
  {
    if n == 0 then []
    else
      var verdict := Verdict(gs, rows, n - 1);
      Failed(gs, rows, n - 1) + if verdict.Err? then [Failure(rows[n - 1].row, rows[n - 1].shown, verdict.error)]
                                else []
  }

  // ── Twins and the row taken ──

  lemma {:induction false} TwinsShare(gs: Guests, a: Checked, b: Checked, c: Checked)
    requires Twins(gs, b, c) && OneContact(b.own.value) && OneContact(c.own.value)
    ensures Twins(gs, a, c) <==> Twins(gs, a, b)
  {
  }

  lemma {:induction false} HeldByTwins(gs: Guests, a: Checked, b: Checked)
    requires Twins(gs, a, b) && OneContact(a.own.value) && OneContact(b.own.value)
    ensures EmailHeld(gs.lower, gs.existing, a.own.value.email) == EmailHeld(gs.lower, gs.existing, b.own.value.email)
  {
    var one, other := a.own.value.email, b.own.value.email;
    if one.Some? && other.Some? {
      assert forall k :: 0 <= k < |gs.existing| ==>
                           SameEmail(gs.lower, gs.existing[k].email, one.value) ==
                               SameEmail(gs.lower, gs.existing[k].email, other.value);
    }
  }

  lemma {:induction false} AcceptedComesFrom(gs: Guests, rows: seq<Checked>, n: nat, m: nat) returns (j: nat)
    requires n <= |rows| && m < |Accepted(gs, rows, n)|
    ensures j < n && Verdict(gs, rows, j) == Ok(Accepted(gs, rows, n)[m])
  {
    if m < |Accepted(gs, rows, n - 1)| {
      j := AcceptedComesFrom(gs, rows, n - 1, m);
    } else {
      j := n - 1;
    }
  }

  lemma {:induction false} AcceptedHas(gs: Guests, rows: seq<Checked>, n: nat, j: nat) returns (m: nat)
    requires j < n <= |rows| && Verdict(gs, rows, j).Ok?
    ensures m < |Accepted(gs, rows, n)| && Accepted(gs, rows, n)[m] == Verdict(gs, rows, j).value
  {
    if j < n - 1 {
      m := AcceptedHas(gs, rows, n - 1, j);
    } else {
      m := |Accepted(gs, rows, n - 1)|;
    }
  }

  /** The first row with a contact no guest has is the one taken with it. */
  lemma {:induction false} FirstTwinIsTaken(gs: Guests, rows: seq<Checked>, k: nat)
    requires k < |rows| && OneContactEach(rows) && rows[k].own.Ok? &&
               !EmailHeld(gs.lower, gs.existing, rows[k].own.value.email)
    requires FirstTwin(gs, rows, rows[k], k).Some?
    ensures var j := FirstTwin(gs, rows, rows[k], k).value;
            Verdict(gs, rows, j) == rows[j].own
  {
    var j := FirstTwin(gs, rows, rows[k], k).value;
    HeldByTwins(gs, rows[j], rows[k]);
    forall i | 0 <= i < j ensures !Twins(gs, rows[i], rows[j]) {
      TwinsShare(gs, rows[i], rows[j], rows[k]);
    }
  }

  // ── The loop ──

  function RowId(n: nat): string {
    "row-" + Digits(n)
  }

  /** The digits the pattern ^row-(\d+)$ captures. */
  function RowDigits(guestId: string): Option<string> {
    if |guestId| > 4 && guestId[..4] == "row-" && AllDigits(guestId[4..]) then Some(guestId[4..]) else None
  }

  /** The pattern is matched exactly by "row-" and digits, which it captures. */
  lemma {:induction false} RowDigitsExactly(guestId: string, digits: string)
    ensures RowDigits(guestId) == Some(digits) <==> AllDigits(digits) && guestId == "row-" + digits
  {
    if RowDigits(guestId).Some? {
      assert guestId == guestId[..4] + guestId[4..];
    }
    if guestId == "row-" + digits {
      assert guestId[..4] == "row-" && guestId[4..] == digits;
    }
  }

  lemma {:induction false} RowIdReadsBack(n: nat)
    ensures RowDigits(RowId(n)) == Some(Digits(n))
  {
    assert RowId(n)[4..] == Digits(n);
  }

  /** The contacts remembered from the rows taken so far. */
  function Seen(guests: seq<NewGuest>): seq<Contact> {
    seq(|guests|, m requires 0 <= m < |guests| => Contact(RowId(guests[m].rowNumber), guests[m].email))
  }

  ghost predicate HoldsPhone(guests: seq<NewGuest>, phone: string, row: nat) {
    exists m :: 0 <= m < |guests| && guests[m].phone == Some(phone) && guests[m].rowNumber == row
  }

  /** Each phone taken, with the row it was taken on. */
  ghost predicate PhonesOf(guests: seq<NewGuest>, phones: map<string, nat>) {
    && (forall m :: 0 <= m < |guests| && guests[m].phone.Some? ==> guests[m].phone.value in phones)
    && (forall p :: p in phones ==> HoldsPhone(guests, p, phones[p]))
  }

  /** A taken row with this row's contact is this row's first twin. */
  lemma {:induction false} TakenTwin(gs: Guests, rows: seq<Checked>, k: nat, m: nat)
    requires k < |rows| && OneContactEach(rows) && rows[k].own.Ok? && m < |Accepted(gs, rows, k)|
    requires SameContact(gs, Accepted(gs, rows, k)[m], rows[k].own.value)
    ensures FirstTwin(gs, rows, rows[k], k).Some?
    ensures Accepted(gs, rows, k)[m].rowNumber == rows[FirstTwin(gs, rows, rows[k], k).value].row
  {
    var i := AcceptedComesFrom(gs, rows, k, m);
    assert Twins(gs, rows[i], rows[k]);
    var j := FirstTwin(gs, rows, rows[k], k).value;
    TwinsShare(gs, rows[j], rows[i], rows[k]);
  }

  /** A row's first twin is remembered, whichever contact they share. */
  lemma {:induction false} TwinIsRemembered(gs: Guests, rows: seq<Checked>, k: nat, phones: map<string, nat>)
    requires k < |rows| && OneContactEach(rows) && rows[k].own.Ok? &&
               !EmailHeld(gs.lower, gs.existing, rows[k].own.value.email)
    requires PhonesOf(Accepted(gs, rows, k), phones) && FirstTwin(gs, rows, rows[k], k).Some?
    ensures var guest := rows[k].own.value;
            EmailHeld(gs.lower, Seen(Accepted(gs, rows, k)), guest.email) ||
                (guest.phone.Some? && guest.phone.value in phones)
  {
    var taken, guest := Accepted(gs, rows, k), rows[k].own.value;
    var j := FirstTwin(gs, rows, rows[k], k).value;
    FirstTwinIsTaken(gs, rows, k);
    var m := AcceptedHas(gs, rows, k, j);
    assert SameContact(gs, taken[m], guest);
    if guest.email.Some? {
      assert SameEmail(gs.lower, Seen(taken)[m].email, guest.email.value);
    }
  }

  /** A phone remembered is the first twin's, and so is its row. */
  lemma {:induction false} PhoneNamesTwin(gs: Guests, rows: seq<Checked>, k: nat, phones: map<string, nat>)
    requires k < |rows| && OneContactEach(rows) && rows[k].own.Ok? && PhonesOf(Accepted(gs, rows, k), phones)
    requires rows[k].own.value.phone.Some? && rows[k].own.value.phone.value in phones
    ensures FirstTwin(gs, rows, rows[k], k).Some?
    ensures phones[rows[k].own.value.phone.value] == rows[FirstTwin(gs, rows, rows[k], k).value].row
  {
    var taken, phone := Accepted(gs, rows, k), rows[k].own.value.phone;
    assert HoldsPhone(taken, phone.value, phones[phone.value]);
    var m :| 0 <= m < |taken| && taken[m].phone == phone && taken[m].rowNumber == phones[phone.value];
    TakenTwin(gs, rows, k, m);
  }

  /** The remembered row with the email is the first twin's. */
  lemma {:induction false} EmailNamesTwin(gs: Guests, rows: seq<Checked>, k: nat, m: nat)
    requires k < |rows| && OneContactEach(rows) && rows[k].own.Ok? && rows[k].own.value.email.Some?
    requires m < |Accepted(gs, rows, k)|
    requires SameEmail(gs.lower, Seen(Accepted(gs, rows, k))[m].email, rows[k].own.value.email.value)
    ensures FirstTwin(gs, rows, rows[k], k).Some?
    ensures RowDigits(Seen(Accepted(gs, rows, k))[m].guestId) ==
              Some(Digits(rows[FirstTwin(gs, rows, rows[k], k).value].row))
  {
    TakenTwin(gs, rows, k, m);
    RowIdReadsBack(Accepted(gs, rows, k)[m].rowNumber);
  }

  lemma {:induction false} PhoneRemembered(guests: seq<NewGuest>, phones: map<string, nat>, guest: NewGuest)
    requires PhonesOf(guests, phones) && (guest.phone.Some? ==> guest.phone.value !in phones)
    ensures PhonesOf(guests + [guest], if guest.phone.Some? then phones[guest.phone.value := guest.rowNumber]
                     else phones)
  {
    var after := if guest.phone.Some? then phones[guest.phone.value := guest.rowNumber] else phones;
    forall p | p in after ensures HoldsPhone(guests + [guest], p, after[p]) {
      if guest.phone == Some(p) {
        assert (guests + [guest])[|guests|] == guest;
      } else {
        var m :| 0 <= m < |guests| && guests[m].phone == Some(p) && guests[m].rowNumber == phones[p];
        assert (guests + [guest])[m] == guests[m];
      }
    }
  }

  /** What the loop knows after k rows. */
  ghost predicate SoFar(gs: Guests, rows: seq<Checked>, k: nat, valid: seq<NewGuest>, failures: seq<Failure>,
      seen: seq<Contact>,
                        phones: map<string, nat>)
    requires k <= |rows|
  {
    valid == Accepted(gs, rows, k) && failures == Failed(gs, rows, k) && seen == Seen(valid) && PhonesOf(valid, phones)
  }

  /** The duplicate checks for a row that passed its own, against the guests and the rows taken before it. */
  method FindDuplicate(gs: Guests, guest: NewGuest, seen: seq<Contact>, phones: map<string, nat>,
      ghost rows: seq<Checked>, ghost k: nat)
      returns (duplicate: Option<Reason>)
    requires k < |rows| && OneContactEach(rows) && rows[k].own == Ok(guest)
    requires seen == Seen(Accepted(gs, rows, k)) && PhonesOf(Accepted(gs, rows, k), phones)
    ensures Verdict(gs, rows, k) == if duplicate.Some? then Err(duplicate.value) else Ok(guest)
    ensures duplicate.None? && guest.phone.Some? ==> guest.phone.value !in phones
  {
    var dbDuplicate := FindDuplicateEmail(gs.lower, gs.existing, guest.email);
    if dbDuplicate.Some? {
      return Some(AlreadyOnEvent);
    }
    if FirstTwin(gs, rows, rows[k], k).Some? {
      TwinIsRemembered(gs, rows, k, phones);
    }
    var fileDuplicate := FindDuplicateEmail(gs.lower, seen, guest.email);
    if guest.phone.Some? && guest.phone.value in phones {
      PhoneNamesTwin(gs, rows, k, phones);
      return Some(AlsoOnRow(Digits(phones[guest.phone.value])));
    }
    if fileDuplicate.Some? {
      ghost var m :| 0 <= m < |seen| && fileDuplicate.value == seen[m].guestId &&
          SameEmail(gs.lower, seen[m].email, guest.email.value);
      EmailNamesTwin(gs, rows, k, m);
      var firstRow := RowDigits(fileDuplicate.value);
      return Some(AlsoOnRow(if firstRow.Some? then firstRow.value else "?"));
    }
    return None;
  }

  lemma {:induction false} OneMoreFailed(gs: Guests, rows: seq<Checked>, k: nat, valid: seq<NewGuest>,
      failures: seq<Failure>,
                                         seen: seq<Contact>, phones: map<string, nat>)
    requires k < |rows| && SoFar(gs, rows, k, valid, failures, seen, phones) && Verdict(gs, rows, k).Err?
    ensures SoFar(gs, rows, k + 1, valid, failures + [Failure(rows[k].row, rows[k].shown, Verdict(gs, rows, k).error)],
                  seen, phones)
  {
  }

  lemma {:induction false} OneMoreTaken(gs: Guests, rows: seq<Checked>, k: nat, valid: seq<NewGuest>,
      failures: seq<Failure>,
                                        seen: seq<Contact>, phones: map<string, nat>, guest: NewGuest)
    requires k < |rows| && SoFar(gs, rows, k, valid, failures, seen, phones) && Verdict(gs, rows, k) == Ok(guest)
    requires guest.phone.Some? ==> guest.phone.value !in phones
    ensures SoFar(gs, rows, k + 1, valid + [guest], failures, seen + [Contact(RowId(guest.rowNumber), guest.email)],
                  if guest.phone.Some? then phones[guest.phone.value := guest.rowNumber] else phones)
  {
    PhoneRemembered(valid, phones, guest);
    assert Seen(valid + [guest]) == Seen(valid) + [Contact(RowId(guest.rowNumber), guest.email)];
  }

  lemma {:induction false} CheckedRowsHaveOne(ev: Event, rows: seq<Row>)
    ensures OneContactEach(CheckedRows(ev, rows))
  {
    forall k | 0 <= k < |rows| && OwnCheck(ev, rows[k]).Ok?
      ensures OneContact(OwnCheck(ev, rows[k]).value) && OwnCheck(ev, rows[k]).value.rowNumber == rows[k].rowNumber
    {
      PassedRow(ev, rows[k]);
    }
  }

  /** The loop over the rows, each with its own checks made. */
  method TakeRows(gs: Guests, rows: seq<Checked>) returns (validRows: seq<NewGuest>, failures: seq<Failure>)
    requires OneContactEach(rows)
    ensures validRows == Accepted(gs, rows, |rows|)
    ensures failures == Failed(gs, rows, |rows|)
  {
    validRows, failures := [], [];
    var seenInFile: seq<Contact> := [];
    var phonesSeenInFile: map<string, nat> := map[];
    for k := 0 to |rows|
      invariant SoFar(gs, rows, k, validRows, failures, seenInFile, phonesSeenInFile)
    {
      var row := rows[k];
      if row.own.Err? {
        OneMoreFailed(gs, rows, k, validRows, failures, seenInFile, phonesSeenInFile);
        failures := failures + [Failure(row.row, row.shown, row.own.error)];
        continue;
      }
      var guest := row.own.value;
      var duplicate := FindDuplicate(gs, guest, seenInFile, phonesSeenInFile, rows, k);
      if duplicate.Some? {
        OneMoreFailed(gs, rows, k, validRows, failures, seenInFile, phonesSeenInFile);
        failures := failures + [Failure(row.row, row.shown, duplicate.value)];
        continue;
      }
      OneMoreTaken(gs, rows, k, validRows, failures, seenInFile, phonesSeenInFile, guest);
      validRows := validRows + [guest];
      seenInFile := seenInFile + [Contact(RowId(row.row), guest.email)];
      if guest.phone.Some? {
        phonesSeenInFile := phonesSeenInFile[guest.phone.value := row.row];
      }
    }
  }

  /** The rows taken and the rows turned away, against the event as it is. */
  function Outcome(ev: Event, rows: seq<Row>): (seq<NewGuest>, seq<Failure>) {
    var gs, checked := Guests(ev.lower, ev.existing), CheckedRows(ev, rows);
    (Accepted(gs, checked, |rows|), Failed(gs, checked, |rows|))
  }

  method ValidateImportRows(ev: Event, rows: seq<Row>) returns (validRows: seq<NewGuest>, failures: seq<Failure>)
    ensures (validRows, failures) == Outcome(ev, rows)
  {
    CheckedRowsHaveOne(ev, rows);
    validRows, failures := TakeRows(Guests(ev.lower, ev.existing), CheckedRows(ev, rows));
  }
}
