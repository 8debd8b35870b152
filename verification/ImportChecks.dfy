/** What an import row is held to by itself: exactly what the guest made of it
    is, or which fault the row is refused for. */
module ImportChecks {
  import opened Prelude
  import opened Text
  import opened GuestRows
  import opened GuestContacts
  import opened ImportRows

  // ── Contacts ──

  /** Some text, with neither a blank nor an @ in it. */
  predicate IsPlain(s: string) {
    s != "" && forall k :: 0 <= k < |s| ==> s[k] != '@' && !IsSpace(s[k])
  }

  /** An address: text, an @, and a domain with a dot inside it. */
  ghost predicate IsAddress(s: string) {
    exists name, host, top :: s == name + "@" + host + "." + top && IsPlain(name) && IsPlain(host) && IsPlain(top)
  }

  lemma {:induction false} ValidEmailExactly(s: string)
    ensures IsValidEmail(s) <==> IsAddress(s)
  {
    if IsValidEmail(s) {
      var at, dot :| 0 < at < dot < |s| - 1 && at + 1 < dot && s[at] == '@' && s[dot] == '.'
                     && (forall k :: 0 <= k < |s| && k != at ==> s[k] != '@' && !IsSpace(s[k]));
      AddressParts(s, at, dot);
    }
    if name, host, top :| s == name + "@" + host + "." + top && IsPlain(name) && IsPlain(host) && IsPlain(top) {
      AddressAt(s, name, host, top);
    }
  }

  lemma {:induction false} AddressParts(s: string, at: nat, dot: nat)
    requires 0 < at && at + 1 < dot < |s| - 1 && s[at] == '@' && s[dot] == '.'
    requires forall k :: 0 <= k < |s| && k != at ==> s[k] != '@' && !IsSpace(s[k])
    ensures IsAddress(s)
  {
    var name, host, top := s[..at], s[at + 1..dot], s[dot + 1..];
    assert s == name + "@" + host + "." + top;
    assert IsPlain(name) && IsPlain(host) && IsPlain(top);
  }

  lemma {:induction false} AddressAt(s: string, name: string, host: string, top: string)
    requires s == name + "@" + host + "." + top && IsPlain(name) && IsPlain(host) && IsPlain(top)
    ensures IsValidEmail(s)
  {
    var at, dot := |name|, |name| + 1 + |host|;
    assert s[at] == '@' && s[dot] == '.';
    forall k | 0 <= k < |s| && k != at ensures s[k] != '@' && !IsSpace(s[k]) {
      assert k < at ==> s[k] == name[k];
      assert at < k < dot ==> s[k] == host[k - at - 1];
      assert dot < k ==> s[k] == top[k - dot - 1];
    }
    assert 0 < at < dot < |s| - 1 && at + 1 < dot;
  }

  /** A + or a digit, then digits, blanks, hyphens and brackets, at least six of them digits. */
  ghost predicate IsPhoneText(s: string) {
    && s != "" && (s[0] == '+' || '0' <= s[0] <= '9')
    && (forall k :: 1 <= k < |s| ==> '0' <= s[k] <= '9' || IsSpace(s[k]) || s[k] in {'-', '(', ')'})
    && |DigitPlaces(s, |s|)| >= 6
  }

  ghost function DigitPlaces(s: string, n: nat): set<nat>
    requires n <= |s|
  {
    set k: nat | k < n && '0' <= s[k] <= '9'
  }

  lemma {:induction false} DigitsCounted(s: string)
    ensures DigitCount(s) == |DigitPlaces(s, |s|)|
  {
    CountedFrom(s, 0);
    assert s[0..] == s && DigitPlaces(s, |s|) == DigitPlaces(s, |s|) - DigitPlaces(s, 0);
  }

  lemma {:induction false} CountedFrom(s: string, n: nat)
    requires n <= |s|
    ensures DigitCount(s[n..]) == |DigitPlaces(s, |s|) - DigitPlaces(s, n)|
    decreases |s| - n
  {
    var rest := DigitPlaces(s, |s|) - DigitPlaces(s, n);
    if n == |s| {
      assert rest == {};
    } else {
      CountedFrom(s, n + 1);
      var later := DigitPlaces(s, |s|) - DigitPlaces(s, n + 1);
      assert s[n..][0] == s[n] && s[n..][1..] == s[n + 1..];
      assert rest == if '0' <= s[n] <= '9' then later + {n} else later;
    }
  }

  lemma {:induction false} ShapeExactly(raw: string)
    ensures DetectContactShape(raw) == EmailShape <==> '@' in Trim(raw)
    ensures DetectContactShape(raw) == PhoneShape <==> '@' !in Trim(raw) && IsPhoneText(Trim(raw))
  {
    DigitsCounted(Trim(raw));
  }

  // ── A whole row ──

  predicate SaysDay(ev: Event, row: Row, d: int)
    requires 0 <= d < |ev.days|
  {
    ev.lower(Trim(ev.days[d].name)) == ev.lower(Trim(row.day))
  }

  /** The number typed, in nothing but digits. */
  predicate SaysNumber(text: string, n: nat) {
    AllDigits(text) && DigitsValue(text) == n
  }

  /** What would refuse this row. */
  ghost predicate IsFault(ev: Event, row: Row, reason: Reason) {
    var contact := Trim(row.contact);
    match reason
    case NoContact => contact == ""
    case NeitherShape => contact != "" && '@' !in contact && !IsPhoneText(contact)
    case InvalidEmail => '@' in contact && !IsAddress(ev.lower(contact))
    case InvalidPhone(error) =>
      && '@' !in contact && IsPhoneText(contact)
      && (match error
          case BadFormat => contact[0] == '+' && ev.phones.international(contact).None?
          case NoCountryCode(number) => contact[0] != '+' && ev.phones.southAfrican(contact) == Some(number)
          case NotAPhone => contact[0] != '+' && ev.phones.southAfrican(contact).None?)
    case EmailRequired => ev.requireEmail && contact != "" && '@' !in contact
    case DayRequired => Trim(row.day) == "" && |ev.days| != 1
    case UnknownDay(day) => day == Trim(row.day) && day != "" && forall d :: 0 <= d < |ev.days| ==> !SaysDay(ev, row, d)
    case InvalidPlusOnes(text) =>
      text == Trim(row.plusOnes) && text != "" && forall n :: SaysNumber(text, n) ==> n > 20
    case AlreadyOnEvent => false
    case AlsoOnRow(_) => false
  }

  /** The order faults are looked for in. */
  function Turn(reason: Reason): nat {
    match reason
    case NoContact => 0
    case NeitherShape => 1
    case InvalidEmail => 2
    case InvalidPhone(_) => 3
    case EmailRequired => 4
    case DayRequired => 5
    case UnknownDay(_) => 6
    case InvalidPlusOnes(_) => 7
    case AlreadyOnEvent => 8
    case AlsoOnRow(_) => 9
  }

  /** A text without the blanks around it, and none when that leaves nothing. */
  predicate IsText(typed: string, text: Option<string>) {
    if Trim(typed) == "" then text.None? else text == Some(Trim(typed))
  }

  /** The day a row is for: the only one when it names none, and otherwise the last with the name it gives. */
  ghost predicate IsDayOf(ev: Event, row: Row, dayId: Id) {
    if Trim(row.day) == "" then |ev.days| == 1 && dayId == ev.days[0].id
    else
      exists d :: 0 <= d < |ev.days| && SaysDay(ev, row, d) && dayId == ev.days[d].id
        && forall e :: d < e < |ev.days| ==> !SaysDay(ev, row, e)
  }

  /** The guest is the row as typed. */
  ghost predicate IsAsTyped(ev: Event, row: Row, guest: NewGuest) {
    var contact := Trim(row.contact);
    && guest.rowNumber == row.rowNumber
    && IsText(row.firstName, guest.firstName) && IsText(row.surname, guest.surname)
    && (if '@' in contact then guest.email == Some(ev.lower(contact)) && guest.phone.None?
        else guest.email.None? && guest.phone.Some? && guest.phone == ev.phones.international(contact))
    && IsDayOf(ev, row, guest.dayId)
    && (if Trim(row.plusOnes) == "" then guest.plusOnes == 0
        else SaysNumber(Trim(row.plusOnes), guest.plusOnes) && guest.plusOnes <= 20)
  }

  lemma {:induction false} ContactsExactly(ev: Event, row: Row)
    requires Trim(row.contact) != ""
    ensures var contact := Trim(row.contact);
            match Contacts(ev, contact)
            case Ok((email, phone)) =>
              && !IsFault(ev, row, NeitherShape) && !IsFault(ev, row, InvalidEmail)
              && (forall error :: !IsFault(ev, row, InvalidPhone(error)))
              && (if '@' in contact then email == Some(ev.lower(contact)) && phone.None?
                  else email.None? && phone.Some? && phone == ev.phones.international(contact))
            case Err(reason) =>
              && IsFault(ev, row, reason) && Turn(reason) <= 3
              && (forall other :: IsFault(ev, row, other) ==> Turn(reason) <= Turn(other))
  {
    var contact := Trim(row.contact);
    TrimTrims(row.contact);
    ShapeExactly(contact);
    ValidEmailExactly(ev.lower(contact));
    ValidEmailExactly(Normal(ev.lower, contact));
  }

  lemma {:induction false} DayExactly(ev: Event, row: Row)
    ensures match DayOf(ev, row.day)
            case Ok(dayId) =>
              IsDayOf(ev, row, dayId) && !IsFault(ev, row, DayRequired) && !IsFault(ev, row, UnknownDay(Trim(row.day)))
            case Err(reason) => IsFault(ev, row, reason) && reason in {DayRequired, UnknownDay(Trim(row.day))}
  {
    var keys, key := DayKeys(ev), ev.lower(Trim(row.day));
    if Trim(row.day) != "" {
      DayMapHolds(keys, ev.days, |ev.days|, key);
      forall d | 0 <= d < |ev.days| ensures SaysDay(ev, row, d) <==> keys[d] == key {
      }
      if key in DayMap(keys, ev.days, |ev.days|) {
        var d :| IsLastNamed(keys, |ev.days|, key, d) && DayMap(keys, ev.days, |ev.days|)[key] == ev.days[d].id;
        assert SaysDay(ev, row, d);
      }
    }
  }

  lemma {:induction false} PlusOnesExactly(ev: Event, row: Row)
    ensures var text := Trim(row.plusOnes);
            match PlusOnesOf(row.plusOnes)
            case Ok(n) =>
              && !IsFault(ev, row, InvalidPlusOnes(text))
              && (if text == "" then n == 0 else SaysNumber(text, n) && n <= 20)
            case Err(reason) => reason == InvalidPlusOnes(text) && IsFault(ev, row, reason)
  {
    var text := Trim(row.plusOnes);
    if AllDigits(text) {
      assert SaysNumber(text, DigitsValue(text));
    }
  }

  lemma {:induction false} PassedAsTyped(ev: Event, row: Row)
    requires OwnCheck(ev, row).Ok?
    ensures IsAsTyped(ev, row, OwnCheck(ev, row).value) && forall reason :: !IsFault(ev, row, reason)
  {
    ContactsExactly(ev, row);
    DayExactly(ev, row);
    PlusOnesExactly(ev, row);
  }

  lemma {:induction false} RefusedForFirstFault(ev: Event, row: Row)
    requires OwnCheck(ev, row).Err?
    ensures IsFault(ev, row, OwnCheck(ev, row).error)
    ensures forall other :: IsFault(ev, row, other) ==> Turn(OwnCheck(ev, row).error) <= Turn(other)
  {
    if Trim(row.contact) != "" {
      ContactsExactly(ev, row);
      DayExactly(ev, row);
      PlusOnesExactly(ev, row);
    }
  }

  /** A row that has no fault becomes exactly the guest typed; any other is refused for its first. */
  lemma {:induction false} RowExactly(ev: Event, row: Row)
    ensures match OwnCheck(ev, row)
            case Ok(guest) => IsAsTyped(ev, row, guest) && forall reason :: !IsFault(ev, row, reason)
            case Err(reason) =>
              && IsFault(ev, row, reason)
              && (forall other :: IsFault(ev, row, other) ==> Turn(reason) <= Turn(other))
  {
    if OwnCheck(ev, row).Ok? {
      PassedAsTyped(ev, row);
    } else {
      RefusedForFirstFault(ev, row);
    }
  }

  /** And a failure shows the contact as typed, or that there was none. */
  lemma {:induction false} ShownAsTyped(ev: Event, rows: seq<Row>, k: nat)
    requires k < |rows|
    ensures |CheckedRows(ev, rows)| == |rows|
    ensures var checked := CheckedRows(ev, rows)[k];
            && checked.row == rows[k].rowNumber && checked.own == OwnCheck(ev, rows[k])
            && checked.shown == if Trim(rows[k].contact) == "" then "(blank)" else Trim(rows[k].contact)
  {
  }
}
