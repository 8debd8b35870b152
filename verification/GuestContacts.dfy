/** The contact rules guests are held to: what looks like an email or a phone
    number, what is one, and whose email is already taken. */
module GuestContacts {
  import opened Prelude
  import opened Text
  import opened GuestRows

  datatype Shape = EmailShape | PhoneShape | UnknownShape

  function DigitCount(s: string): nat {
    if s == "" then 0 else (if IsDigit(s[0]) then 1 else 0) + DigitCount(s[1..])
  }

  predicate InPhone(c: char) {
    IsDigit(c) || IsSpace(c) || c == '-' || c == '(' || c == ')'
  }

  function DetectContactShape(raw: string): Shape {
    var s := Trim(raw);
    if '@' in s then EmailShape
    else if s != "" && (s[0] == '+' || IsDigit(s[0])) && (forall k :: 1 <= k < |s| ==> InPhone(s[k])) &&
        DigitCount(s) >= 6
    then PhoneShape
    else UnknownShape
  }

  /** One @, something before it, and a dot inside what follows; no blanks. */
  predicate IsValidEmail(s: string) {
    exists at, dot :: 0 < at < dot < |s| - 1 && at + 1 < dot && s[at] == '@' && s[dot] == '.'
                      && (forall k :: 0 <= k < |s| && k != at ==> s[k] != '@' && !IsSpace(s[k]))
  }

  datatype PhoneError = BadFormat | NoCountryCode(international: string) | NotAPhone

  /** A valid number's international form, as the phone library reads a text
      with and without a country to assume. */
  datatype PhoneLibrary = PhoneLibrary(international: string -> Option<string>, southAfrican: string -> Option<string>)

  function NormalizePhone(library: PhoneLibrary, raw: string): Result<string, PhoneError> {
    var s := Trim(raw);
    if s != "" && s[0] == '+' then
      match library.international(s)
      case Some(number) => Ok(number)
      case None => Err(BadFormat)
    else
      match library.southAfrican(s)
      case Some(number) => Err(NoCountryCode(number))
      case None => Err(NotAPhone)
  }

  datatype Contact = Contact(guestId: string, email: Option<string>)

  predicate SameEmail(lower: string -> string, stored: Option<string>, email: string) {
    stored.Some? && stored.value != "" && Normal(lower, stored.value) == Normal(lower, email)
  }

  predicate EmailHeld(lower: string -> string, contacts: seq<Contact>, email: Option<string>) {
    email.Some? && email.value != "" && exists k ::
        0 <= k < |contacts| && SameEmail(lower, contacts[k].email, email.value)
  }

  /** The first contact holding the email, if any does. */
  method FindDuplicateEmail(lower: string -> string, contacts: seq<Contact>, email: Option<string>)
      returns (found: Option<string>)
    ensures found.Some? == EmailHeld(lower, contacts, email)
    ensures found.Some? <==>
              email.Some? && email.value != "" && exists k ::
                && 0 <= k < |contacts| && contacts[k].email.Some? && contacts[k].email.value != ""
                && lower(Trim(contacts[k].email.value)) == lower(Trim(email.value))
    ensures found.Some? ==>
              exists k :: 0 <= k < |contacts| && found.value == contacts[k].guestId &&
                  SameEmail(lower, contacts[k].email, email.value)
                          && (forall j :: 0 <= j < k ==> !SameEmail(lower, contacts[j].email, email.value))
  {
    if email.None? || email.value == "" {
      return None;
    }
    for k := 0 to |contacts|
      invariant forall j :: 0 <= j < k ==> !SameEmail(lower, contacts[j].email, email.value)
    {
      if SameEmail(lower, contacts[k].email, email.value) {
        return Some(contacts[k].guestId);
      }
    }
    return None;
  }

  /** A shape is decided by the text itself: an @ anywhere makes it an email. */
  lemma {:induction false} ValidEmailLooksLikeOne(raw: string)
    requires IsValidEmail(Trim(raw))
    ensures DetectContactShape(raw) == EmailShape
  {
    var at, dot :| 0 < at < dot < |Trim(raw)| - 1 && at + 1 < dot && Trim(raw)[at] == '@' && Trim(raw)[dot] == '.'
                   && (forall k :: 0 <= k < |Trim(raw)| && k != at ==> Trim(raw)[k] != '@' && !IsSpace(Trim(raw)[k]));
    assert Trim(raw)[at] in Trim(raw);
  }
}
