/** What each kind of row in a full event update makes of a submitted row: the
    row's own endpoint rules, for a new row and for a change to a saved one. */
module FullUpdateRules {
  import opened Prelude
  import opened Text
  import opened ListPlan
  import opened DayRelabel

  /** A request field that may be left out. */
  datatype Field<+T> = Absent | Given(value: T)

  datatype FieldError =
    | NoLabel | NoDate | PastDate | NoVenueName | NoVenueAddress | HalfCoordinates | BadLatitude | BadLongitude
    | EndsBeforeStart
    | NoName | NoPrice | BadQuantity | NoFieldType | BadOptions
    | NoTitle | NoStart | BadDuration | NotADayOfThisEvent | DayRequired | NotOnItsDay

  function Else<T>(f: Field<T>, stored: T): T {
    if f.Given? then f.value else stored
  }

  /** A required text: trimmed, and not blank. */
  function RequiredText(s: string, error: FieldError): Result<string, FieldError> {
    if Trim(s) == "" then Err(error) else Ok(Trim(s))
  }

  lemma {:induction false} RequiredTextKeeps(s: string, error: FieldError)
    ensures RequiredText(s, error).Ok? ==> RequiredText(RequiredText(s, error).value, error) == RequiredText(s, error)
  {
    TrimTrims(s);
  }

  // ── Days ──

  /** Dates and times are as the client's text parses; `date` is None for one that doesn't. */
  datatype DayFields = DayFields(
    dayLabel: Field<string>, date: Field<Option<int>>, startTime: Field<Option<Time>>, endTime: Field<Option<Time>>,
    location: Field<string>, address: Field<string>, latitude: Field<Option<real>>, longitude: Field<Option<real>>)

  function CheckCoordinates(latitude: Option<real>, longitude: Option<real>): Option<FieldError> {
    if latitude.None? && longitude.None? then None
    else if latitude.None? || longitude.None? then Some(HalfCoordinates)
    else if !(-90.0 <= latitude.value <= 90.0) then Some(BadLatitude)
    else if !(-180.0 <= longitude.value <= 180.0) then Some(BadLongitude)
    else None
  }

  function NewVenue(f: DayFields): Result<Venue, FieldError> {
    var location := RequiredText(Else(f.location, ""), NoVenueName);
    var address := RequiredText(Else(f.address, ""), NoVenueAddress);
    var latitude := Else(f.latitude, None);
    var longitude := Else(f.longitude, None);
    if location.Err? then Err(location.error)
    else if address.Err? then Err(address.error)
    else if CheckCoordinates(latitude, longitude).Some? then Err(CheckCoordinates(latitude, longitude).value)
    else Ok(Venue(Some(location.value), Some(address.value), latitude, longitude))
  }

  function OrEmpty(s: Option<string>): string {
    if s.Some? then s.value else ""
  }

  /** An address that changes without fresh coordinates clears the old ones. */
  function ChangedVenue(f: DayFields, stored: Venue): Result<Venue, FieldError> {
    var location := RequiredText(Else(f.location, OrEmpty(stored.location)), NoVenueName);
    var address := RequiredText(Else(f.address, OrEmpty(stored.address)), NoVenueAddress);
    if location.Err? then Err(location.error)
    else if address.Err? then Err(address.error)
    else if f.latitude.Given? || f.longitude.Given? then
      var latitude := Else(f.latitude, None);
      var longitude := Else(f.longitude, None);
      if CheckCoordinates(latitude, longitude).Some? then Err(CheckCoordinates(latitude, longitude).value)
      else Ok(Venue(Some(location.value), Some(address.value), latitude, longitude))
    else if Some(address.value) != stored.address then Ok(Venue(Some(location.value), Some(address.value), None, None))
    else Ok(stored.(location := Some(location.value)))
  }

  predicate TimesInOrder(startTime: Option<Time>, endTime: Option<Time>) {
    startTime.Some? && endTime.Some? ==> startTime.value < endTime.value
  }

  function NewDay(today: int, f: DayFields): Result<Day, FieldError> {
    var dayLabel := RequiredText(Else(f.dayLabel, ""), NoLabel);
    var date := Else(f.date, None);
    var venue := NewVenue(f);
    var startTime := Else(f.startTime, None);
    var endTime := Else(f.endTime, None);
    if dayLabel.Err? then Err(dayLabel.error)
    else if date.None? then Err(NoDate)
    else if date.value < today - 1 then Err(PastDate)
    else if venue.Err? then Err(venue.error)
    else if !TimesInOrder(startTime, endTime) then Err(EndsBeforeStart)
    else Ok(Day(dayLabel.value, date.value, startTime, endTime, venue.value))
  }

  function ChangedDay(today: int, f: DayFields, stored: Day): Result<Day, FieldError> {
    var dayLabel := if f.dayLabel.Given? then RequiredText(f.dayLabel.value, NoLabel) else Ok(stored.dayLabel);
    var date := Else(f.date, Some(stored.date));
    var venue := ChangedVenue(f, stored.venue);
    var startTime := Else(f.startTime, stored.startTime);
    var endTime := Else(f.endTime, stored.endTime);
    if dayLabel.Err? then Err(dayLabel.error)
    else if date.None? then Err(NoDate)
    else if date.value != stored.date && date.value < today - 1 then Err(PastDate)
    else if venue.Err? then Err(venue.error)
    else if !TimesInOrder(startTime, endTime) then Err(EndsBeforeStart)
    else Ok(Day(dayLabel.value, date.value, startTime, endTime, venue.value))
  }

  function DayRules(today: int): Rules<DayFields, Day, FieldError> {
    Rules((n, f) => NewDay(today, f), (n, f, stored) => ChangedDay(today, f, stored))
  }

  lemma {:induction false} SameVenueAgain(f: DayFields, stored: Option<Venue>)
    ensures var made := if stored.Some? then ChangedVenue(f, stored.value) else NewVenue(f);
            made.Ok? ==> ChangedVenue(f, made.value) == made
  {
    RequiredTextKeeps(if stored.Some? then Else(f.location, OrEmpty(stored.value.location))
                      else Else(f.location, ""), NoVenueName);
    RequiredTextKeeps(if stored.Some? then Else(f.address, OrEmpty(stored.value.address))
                      else Else(f.address, ""), NoVenueAddress);
  }

  /** Sending the same fields to the day they made changes nothing, on any later date. */
  lemma {:induction false} SameDayAgain(today: int, later: int, f: DayFields, stored: Option<Day>)
    ensures var made := if stored.Some? then ChangedDay(today, f, stored.value) else NewDay(today, f);
            made.Ok? ==> ChangedDay(later, f, made.value) == made
  {
    var made := if stored.Some? then ChangedDay(today, f, stored.value) else NewDay(today, f);
    if made.Ok? {
      SameVenueAgain(f, if stored.Some? then Some(stored.value.venue) else None);
      assert ChangedVenue(f, made.value.venue) == Ok(made.value.venue);
    }
  }

  // ── Ticket types ──

  datatype Ticket = Ticket(
    name: string, description: Option<string>, price: real, currency: string, totalQuantity: Option<int>,
    isAvailable: bool)

  datatype TicketFields = TicketFields(
    name: Field<string>, description: Field<Option<string>>, price: Field<Option<real>>, currency: Field<string>,
    totalQuantity: Field<Option<int>>, isAvailable: Field<bool>)

  function Price(price: Option<real>): Result<real, FieldError> {
    if price.None? || price.value < 0.0 then Err(NoPrice) else Ok(price.value)
  }

  predicate WholeOrBlank(n: Option<int>) {
    n.Some? ==> n.value >= 0
  }

  /** A new ticket type is created available, whatever the row says. */
  function NewTicket(f: TicketFields): Result<Ticket, FieldError> {
    var name := RequiredText(Else(f.name, ""), NoName);
    var price := Price(Else(f.price, None));
    var totalQuantity := Else(f.totalQuantity, None);
    if name.Err? then Err(name.error)
    else if price.Err? then Err(price.error)
    else if !WholeOrBlank(totalQuantity) then Err(BadQuantity)
    else Ok(Ticket(name.value, Else(f.description, None), price.value, Else(f.currency, "ZAR"), totalQuantity, true))
  }

  function ChangedTicket(f: TicketFields, stored: Ticket): Result<Ticket, FieldError> {
    var name := if f.name.Given? then RequiredText(f.name.value, NoName) else Ok(stored.name);
    var price := if f.price.Given? then Price(f.price.value) else Ok(stored.price);
    if name.Err? then Err(name.error)
    else if price.Err? then Err(price.error)
    else if f.totalQuantity.Given? && !WholeOrBlank(f.totalQuantity.value) then Err(BadQuantity)
    else Ok(Ticket(name.value, Else(f.description, stored.description), price.value, Else(f.currency, stored.currency),
                   Else(f.totalQuantity, stored.totalQuantity), Else(f.isAvailable, stored.isAvailable)))
  }

  function TicketRules(): Rules<TicketFields, Ticket, FieldError> {
    Rules((n, f) => NewTicket(f), (n, f, stored) => ChangedTicket(f, stored))
  }

  /** Sending the same fields again changes nothing, except that a ticket type
      created from a row that asks for it to be unavailable is now made so. */
  lemma {:induction false} SameTicketAgain(f: TicketFields, stored: Option<Ticket>)
    ensures var made := if stored.Some? then ChangedTicket(f, stored.value) else NewTicket(f);
            made.Ok? ==> (ChangedTicket(f, made.value) == made <==> stored.Some? || f.isAvailable != Given(false))
  {
    RequiredTextKeeps(Else(f.name, ""), NoName);
  }

  /** A row that asks for a new ticket type, free and unavailable. */
  function UnavailableRow(): TicketFields {
    TicketFields(Given("Stalls"), Absent, Given(Some(0.0)), Absent, Absent, Given(false))
  }

  /** It is created available, and the same row then makes it unavailable. */
  lemma {:induction false} UnavailableRowHasMoreToDo()
    ensures NewTicket(UnavailableRow()) == Ok(Ticket("Stalls", None, 0.0, "ZAR", None, true))
    ensures ChangedTicket(UnavailableRow(), NewTicket(UnavailableRow()).value)
         == Ok(Ticket("Stalls", None, 0.0, "ZAR", None, false))
  {
    TrimTrims("Stalls");
    assert IsTrimmed("Stalls");
  }

  // ── Custom RSVP questions ──

  datatype FieldType = TEXT | NUMBER | EMAIL | PHONE | DROPDOWN | CHECKBOX | DATE

  datatype RsvpField = RsvpField(
    fieldLabel: string, fieldType: FieldType, isRequired: bool, options: Option<string>, order: nat)

  /** `fieldType` is None for an answer type there isn't. */
  datatype RsvpFieldFields = RsvpFieldFields(
    fieldLabel: Field<string>, fieldType: Field<Option<FieldType>>, isRequired: Field<bool>,
    options: Field<Option<string>>)

  /** `isList` says whether a text is a JSON list of text choices. */
  predicate OptionsOk(isList: string -> bool, f: RsvpFieldFields) {
    f.options.Given? && f.options.value.Some? ==> isList(f.options.value.value)
  }

  function NewRsvpField(isList: string -> bool, order: nat, f: RsvpFieldFields): Result<RsvpField, FieldError> {
    var fieldLabel := RequiredText(Else(f.fieldLabel, ""), NoLabel);
    var fieldType := Else(f.fieldType, None);
    if fieldLabel.Err? then Err(fieldLabel.error)
    else if fieldType.None? then Err(NoFieldType)
    else if !OptionsOk(isList, f) then Err(BadOptions)
    else Ok(RsvpField(fieldLabel.value, fieldType.value, Else(f.isRequired, false), Else(f.options, None), order))
  }

  function ChangedRsvpField(isList: string -> bool, order: nat, f: RsvpFieldFields,
      stored: RsvpField): Result<RsvpField, FieldError> {
    var fieldLabel := if f.fieldLabel.Given? then RequiredText(f.fieldLabel.value, NoLabel) else Ok(stored.fieldLabel);
    var fieldType := Else(f.fieldType, Some(stored.fieldType));
    if fieldLabel.Err? then Err(fieldLabel.error)
    else if fieldType.None? then Err(NoFieldType)
    else if !OptionsOk(isList, f) then Err(BadOptions)
    else Ok(RsvpField(fieldLabel.value, fieldType.value, Else(f.isRequired, stored.isRequired),
                      Else(f.options, stored.options), order))
  }

  function RsvpFieldRules(isList: string -> bool): Rules<RsvpFieldFields, RsvpField, FieldError> {
    Rules((n, f) => NewRsvpField(isList, n, f), (n, f, stored) => ChangedRsvpField(isList, n, f, stored))
  }

  lemma {:induction false} SameRsvpFieldAgain(isList: string -> bool, order: nat, f: RsvpFieldFields,
      stored: Option<RsvpField>)
    ensures var made := if stored.Some? then ChangedRsvpField(isList, order, f, stored.value)
                        else NewRsvpField(isList, order, f);
            made.Ok? ==> ChangedRsvpField(isList, order, f, made.value) == made
  {
    RequiredTextKeeps(Else(f.fieldLabel, ""), NoLabel);
  }

  // ── Program items ──

  /** A day an item belongs to: a saved one, or the n-th this save creates. */
  datatype DayRef = SavedDay(id: Id) | CreatedDay(index: nat)

  /** A day as it will be after this save. */
  datatype ResultingDay = ResultingDay(ref: DayRef, date: int, dateChanged: bool)

  datatype Item = Item(
    title: string, description: Option<string>, startTime: Time, durationMins: Option<int>, order: nat,
    day: Option<DayRef>)

  datatype ItemFields = ItemFields(
    title: Field<string>, description: Field<Option<string>>, startTime: Field<Option<Time>>,
    durationMins: Field<Option<int>>,
    dayIndex: Field<Option<int>>)

  /** An instant's UTC calendar day. */
  function UtcDay(t: Time): int {
    t / DAY_MS
  }

  /** The day a row's `dayIndex` names, by its position in the request's own days. */
  function ResolveDayIndex(index: Option<int>, days: seq<ResultingDay>): Result<Option<ResultingDay>, FieldError> {
    if index.None? then (if |days| > 1 then Err(DayRequired) else Ok(None))
    else if !(0 <= index.value < |days|) then Err(NotADayOfThisEvent)
    else Ok(Some(days[index.value]))
  }

  function RefOf(day: Option<ResultingDay>): Option<DayRef> {
    if day.Some? then Some(day.value.ref) else None
  }

  predicate StartsOn(startTime: Time, day: Option<ResultingDay>) {
    day.Some? ==> UtcDay(startTime) == day.value.date
  }

  function NewItem(days: seq<ResultingDay>, order: nat, f: ItemFields): Result<Item, FieldError> {
    var title := RequiredText(Else(f.title, ""), NoTitle);
    var startTime := Else(f.startTime, None);
    var durationMins := Else(f.durationMins, None);
    var day := ResolveDayIndex(Else(f.dayIndex, None), days);
    if title.Err? then Err(title.error)
    else if startTime.None? then Err(NoStart)
    else if !WholeOrBlank(durationMins) then Err(BadDuration)
    else if day.Err? then Err(day.error)
    else if !StartsOn(startTime.value, day.value) then Err(NotOnItsDay)
    else Ok(Item(title.value, Else(f.description, None), startTime.value, durationMins, order, RefOf(day.value)))
  }

  /** The first of the save's days with this ref: the one an item that names no day stays on. */
  function FindDay(days: seq<ResultingDay>, ref: DayRef): Option<ResultingDay> {
    if days == [] then None else if days[0].ref == ref then Some(days[0]) else FindDay(days[1..], ref)
  }

  function ChangedItem(days: seq<ResultingDay>, order: nat, f: ItemFields, stored: Item): Result<Item, FieldError> {
    var title := if f.title.Given? then RequiredText(f.title.value, NoTitle) else Ok(stored.title);
    var startTime := Else(f.startTime, Some(stored.startTime));
    var day := if f.dayIndex.Given? then ResolveDayIndex(f.dayIndex.value, days)
               else Ok(if stored.day.Some? then FindDay(days, stored.day.value) else None);
    if title.Err? then Err(title.error)
    else if startTime.None? then Err(NoStart)
    else if f.durationMins.Given? && !WholeOrBlank(f.durationMins.value) then Err(BadDuration)
    else if day.Err? then Err(day.error)
    else
      var ref := if f.dayIndex.Given? then RefOf(day.value) else stored.day;
      if (ref != stored.day || startTime.value != stored.startTime || (day.value.Some? && day.value.value.dateChanged))
         && !StartsOn(startTime.value, day.value) then Err(NotOnItsDay)
      else Ok(Item(title.value, Else(f.description, stored.description), startTime.value,
                   Else(f.durationMins, stored.durationMins), order, ref))
  }

  function ItemRules(days: seq<ResultingDay>): Rules<ItemFields, Item, FieldError> {
    Rules((n, f) => NewItem(days, n, f), (n, f, stored) => ChangedItem(days, n, f, stored))
  }

  /** A created day's item gets the id that day was given. */
  function WithDayId(createdDayIds: seq<Id>, item: Item): Item {
    if item.day.Some? && item.day.value.CreatedDay? && item.day.value.index < |createdDayIds| then
      item.(day := Some(SavedDay(createdDayIds[item.day.value.index])))
    else item
  }

  /** The days of the request after the save: same positions and dates, now all saved. */
  ghost predicate DaysSaved(days: seq<ResultingDay>, createdDayIds: seq<Id>, saved: seq<ResultingDay>) {
    && |saved| == |days|
    && (forall n :: 0 <= n < |days| ==>
          && !saved[n].dateChanged && saved[n].date == days[n].date && saved[n].ref.SavedDay?
          && (days[n].ref.SavedDay? ==> saved[n].ref == days[n].ref)
          && (days[n].ref.CreatedDay? ==>
                days[n].ref.index < |createdDayIds| && saved[n].ref.id == createdDayIds[days[n].ref.index]))
  }

  lemma {:induction false} SameItemAgain(
    days: seq<ResultingDay>, createdDayIds: seq<Id>, saved: seq<ResultingDay>, order: nat, f: ItemFields,
    stored: Option<Item>)
    requires DaysSaved(days, createdDayIds, saved)
    requires stored.Some? && stored.value.day.Some? ==> stored.value.day.value.SavedDay?
    ensures var made := if stored.Some? then ChangedItem(days, order, f, stored.value) else NewItem(days, order, f);
            made.Ok? ==>
              var item := WithDayId(createdDayIds, made.value);
              ChangedItem(saved, order, f, item) == Ok(item)
  {
    RequiredTextKeeps(Else(f.title, ""), NoTitle);
    var made := if stored.Some? then ChangedItem(days, order, f, stored.value) else NewItem(days, order, f);
    if made.Ok? {
      var item := WithDayId(createdDayIds, made.value);
      if !f.dayIndex.Given? && item.day.Some? {
        FoundDayIsUnchanged(saved, item.day.value);
      }
    }
  }

  lemma {:induction false} FoundDayIsUnchanged(days: seq<ResultingDay>, ref: DayRef)
    requires forall n :: 0 <= n < |days| ==> !days[n].dateChanged
    ensures FindDay(days, ref).Some? ==> !FindDay(days, ref).value.dateChanged
  {
    if days != [] {
      FoundDayIsUnchanged(days[1..], ref);
    }
  }

  /** An item that names a position is filed under the id of the day at that position. */
  lemma {:induction false} ItemFiledUnderItsDay(
    days: seq<ResultingDay>, createdDayIds: seq<Id>, saved: seq<ResultingDay>, order: nat, f: ItemFields,
    stored: Option<Item>)
    requires DaysSaved(days, createdDayIds, saved) && f.dayIndex.Given? && f.dayIndex.value.Some?
    ensures var made := if stored.Some? then ChangedItem(days, order, f, stored.value) else NewItem(days, order, f);
            made.Ok? ==>
              var index := f.dayIndex.value.value;
              0 <= index < |saved| && WithDayId(createdDayIds, made.value).day == Some(saved[index].ref)
  {
  }

  // ── The event's own fields, its program's, and its Memory Hub's ──

  datatype EventRow = EventRow(
    name: string, description: Option<string>, coverImageUrl: Option<string>, coverImagePublicId: Option<string>,
    isPublic: bool, isPaid: bool, hostName: Option<string>, rsvpDeadline: Option<Time>, capacity: Option<nat>,
    ticketsRefundable: bool)

  datatype EventFields = EventFields(
    name: Field<string>, description: Field<Option<string>>, coverImageUrl: Field<Option<string>>,
    coverImagePublicId: Field<Option<string>>, isPublic: Field<bool>, isPaid: Field<bool>,
    hostName: Field<Option<string>>,
    rsvpDeadline: Field<Option<Time>>, capacity: Field<Option<nat>>, ticketsRefundable: Field<bool>)

  /** normalizeHostName: trimmed, and none when blank. */
  function HostName(hostName: Option<string>): Option<string> {
    if hostName.None? || Trim(hostName.value) == "" then None else Some(Trim(hostName.value))
  }

  function ChangedEvent(f: EventFields, stored: EventRow): EventRow {
    EventRow(Else(f.name, stored.name), Else(f.description, stored.description),
             Else(f.coverImageUrl, stored.coverImageUrl),
             Else(f.coverImagePublicId, stored.coverImagePublicId), Else(f.isPublic, stored.isPublic),
                 Else(f.isPaid, stored.isPaid),
             if f.hostName.Given? then HostName(f.hostName.value) else stored.hostName,
             Else(f.rsvpDeadline, stored.rsvpDeadline), Else(f.capacity, stored.capacity),
             Else(f.ticketsRefundable, stored.ticketsRefundable))
  }
}
