/** The checks an import row is put to by itself: its contact, its day and its
    plus-ones. */
module ImportRows {
  import opened Prelude
  import opened Text
  import opened GuestRows
  import opened GuestContacts

  datatype Row = Row(rowNumber: nat, firstName: string, surname: string, contact: string, day: string, plusOnes: string)

  datatype Day = Day(id: Id, name: string)

  const MAX_PLUS_ONES_ALLOWED: nat := 20

  /** What the file is checked against. */
  datatype Event = Event(lower: string -> string, phones: PhoneLibrary, days: seq<Day>, existing: seq<Contact>,
                         requireEmail: bool)

  datatype NewGuest = NewGuest(
    rowNumber: nat, firstName: Option<string>, surname: Option<string>, email: Option<string>, phone: Option<string>,
    dayId: Id, plusOnes: nat)

  datatype Reason =
    | NoContact
    | NeitherShape
    | InvalidEmail
    | InvalidPhone(error: PhoneError)
    | EmailRequired
    | DayRequired
    | UnknownDay(day: string)
    | InvalidPlusOnes(text: string)
    | AlreadyOnEvent
    | AlsoOnRow(row: string)

  datatype Failure = Failure(row: nat, contact: string, reason: Reason)

  /** A row after its own checks. */
  datatype Checked = Checked(row: nat, shown: string, own: Result<NewGuest, Reason>)

  // ── One row by itself ──

  function Contacts(ev: Event, contact: string): Result<(Option<string>, Option<string>), Reason> {
    match DetectContactShape(contact)
    case EmailShape =>
      var email := Normal(ev.lower, contact);
      if IsValidEmail(email) then Ok((Some(email), None)) else Err(InvalidEmail)
    case PhoneShape =>
      var phone := NormalizePhone(ev.phones, contact);
      if phone.Ok? then Ok((None, Some(phone.value))) else Err(InvalidPhone(phone.error))
    case UnknownShape => Err(NeitherShape)
  }

  function DayKey(ev: Event, name: string): string {
    ev.lower(Trim(name))
  }

  function DayKeys(ev: Event): seq<string> {
    seq(|ev.days|, d requires 0 <= d < |ev.days| => DayKey(ev, ev.days[d].name))
  }

  /** The first n days by label, in the order the map is filled. */
  function DayMap(keys: seq<string>, days: seq<Day>, n: nat): map<string, Id>
    requires n <= |days| == |keys|
  {
    if n == 0 then map[] else DayMap(keys, days, n - 1)[keys[n - 1] := days[n - 1].id]
  }

  function DayOf(ev: Event, raw: string): Result<Id, Reason> {
    var day := Trim(raw);
    if day == "" then
      if |ev.days| == 1 then Ok(ev.days[0].id) else Err(DayRequired)
    else
      var byName := DayMap(DayKeys(ev), ev.days, |ev.days|);
      if ev.lower(day) in byName then Ok(byName[ev.lower(day)]) else Err(UnknownDay(day))
  }

  function PlusOnesOf(raw: string): Result<nat, Reason> {
    var text := Trim(raw);
    if text == "" then Ok(0)
    else if AllDigits(text) && DigitsValue(text) <= MAX_PLUS_ONES_ALLOWED then Ok(DigitsValue(text))
    else Err(InvalidPlusOnes(text))
  }

  function OrNone(text: string): Option<string> {
    if text == "" then None else Some(text)
  }

  /** Every check that looks at no other row and no existing guest, in order. */
  function OwnCheck(ev: Event, row: Row): Result<NewGuest, Reason> {
    var contact := Trim(row.contact);
    if contact == "" then Err(NoContact)
    else
      match Contacts(ev, contact)
      case Err(reason) => Err(reason)
      case Ok((email, phone)) =>
        if ev.requireEmail && email.None? then Err(EmailRequired)
        else
          match DayOf(ev, row.day)
          case Err(reason) => Err(reason)
          case Ok(dayId) =>
            match PlusOnesOf(row.plusOnes)
            case Err(reason) => Err(reason)
            case Ok(plusOnes) =>
              Ok(NewGuest(row.rowNumber, OrNone(Trim(row.firstName)), OrNone(Trim(row.surname)), email, phone, dayId,
                          plusOnes))
  }

  function CheckedRow(ev: Event, row: Row): Checked {
    Checked(row.rowNumber, if Trim(row.contact) == "" then "(blank)" else Trim(row.contact), OwnCheck(ev, row))
  }

  function CheckedRows(ev: Event, rows: seq<Row>): seq<Checked> {
    seq(|rows|, k requires 0 <= k < |rows| => CheckedRow(ev, rows[k]))
  }

  /** A row that passes has one contact: a real email, or a phone if phones will do. */
  predicate OneContact(guest: NewGuest) {
    && guest.email.Some? != guest.phone.Some?
    && (guest.email.Some? ==> IsValidEmail(guest.email.value) && guest.email.value != "")
  }

  lemma {:induction false} PassedRow(ev: Event, row: Row)
    requires OwnCheck(ev, row).Ok?
    ensures var guest := OwnCheck(ev, row).value;
            && OneContact(guest)
            && guest.rowNumber == row.rowNumber
            && (ev.requireEmail ==> guest.email.Some?)
            && (guest.email.Some? ==> guest.email.value == Normal(ev.lower, row.contact))
            && (guest.phone.Some? ==>
                  Trim(row.contact)[..1] == "+" && guest.phone == ev.phones.international(Trim(row.contact)))
            && guest.plusOnes <= MAX_PLUS_ONES_ALLOWED
            && (exists d :: 0 <= d < |ev.days| && guest.dayId == ev.days[d].id)
  {
    TrimTrims(row.contact);
    DayIsOneOfThem(ev, row.day);
  }

  /** A whole number typed in digits is read as itself from 0 to 20, and refused above. */
  lemma {:induction false} PlusOnesReadBack(n: nat)
    ensures PlusOnesOf(Digits(n)) == if n <= MAX_PLUS_ONES_ALLOWED then Ok(n) else Err(InvalidPlusOnes(Digits(n)))
  {
    var s := Digits(n);
    assert IsDigit(s[0]) && IsDigit(s[|s| - 1]);
    TrimTrims(s);
    DigitsReadBack(n);
  }

  /** The last of the first n days with this label. */
  predicate IsLastNamed(keys: seq<string>, n: nat, key: string, d: int)
    requires n <= |keys|
  {
    0 <= d < n && keys[d] == key && forall e :: d < e < n ==> keys[e] != key
  }

  lemma {:induction false} DayMapHolds(keys: seq<string>, days: seq<Day>, n: nat, key: string)
    requires n <= |days| == |keys|
    ensures key in DayMap(keys, days, n) ==>
              exists d :: IsLastNamed(keys, n, key, d) && DayMap(keys, days, n)[key] == days[d].id
    ensures key !in DayMap(keys, days, n) ==> forall d :: 0 <= d < n ==> keys[d] != key
  {
    if n > 0 {
      DayMapHolds(keys, days, n - 1, key);
      if keys[n - 1] == key {
        assert IsLastNamed(keys, n, key, n - 1);
      } else if key in DayMap(keys, days, n - 1) {
        var d :| IsLastNamed(keys, n - 1, key, d) && DayMap(keys, days, n - 1)[key] == days[d].id;
        assert IsLastNamed(keys, n, key, d);
      }
    }
  }

  lemma {:induction false} DayIsOneOfThem(ev: Event, raw: string)
    requires DayOf(ev, raw).Ok?
    ensures exists d :: 0 <= d < |ev.days| && DayOf(ev, raw).value == ev.days[d].id
  {
    if Trim(raw) == "" {
      assert DayOf(ev, raw).value == ev.days[0].id;
    } else {
      DayMapHolds(DayKeys(ev), ev.days, |ev.days|, ev.lower(Trim(raw)));
    }
  }

  /** With labels told apart by their trimmed lowercase, a day named is found
      exactly by its own label; a day left blank, exactly when there is just one. */
  lemma {:induction false} DayFoundExactly(ev: Event, raw: string, d: nat)
    requires d < |ev.days|
    requires forall a, b :: 0 <= a < b < |ev.days| ==> DayKeys(ev)[a] != DayKeys(ev)[b]
    requires forall a, b :: 0 <= a < b < |ev.days| ==> ev.days[a].id != ev.days[b].id
    ensures DayOf(ev, raw) == Ok(ev.days[d].id) <==>
            if Trim(raw) == "" then |ev.days| == 1 else ev.lower(Trim(raw)) == DayKey(ev, ev.days[d].name)
  {
    if Trim(raw) != "" {
      var keys, key := DayKeys(ev), ev.lower(Trim(raw));
      DayMapHolds(keys, ev.days, |ev.days|, key);
      assert keys[d] == DayKey(ev, ev.days[d].name);
      if key in DayMap(keys, ev.days, |ev.days|) {
        var found :| IsLastNamed(keys, |ev.days|, key, found) &&
            DayMap(keys, ev.days, |ev.days|)[key] == ev.days[found].id;
        assert keys[d] == key <==> found == d;
      }
    }
  }
}
