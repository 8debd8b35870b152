/** What a full event update leaves in every field of every row, and exactly
    when and why a row is refused: said of the request, the stored row and the
    saved row. */
module FullUpdateFields {
  import opened Prelude
  import opened Text
  import opened ListPlan
  import opened ListApply
  import opened DayRelabel
  import opened FullUpdateRules
  import opened FullUpdate

  // ── One field ──

  /** A field given is saved as given; one left out stays `otherwise`. */
  predicate Keeps<T(==)>(f: Field<T>, otherwise: T, saved: T) {
    match f
    case Given(value) => saved == value
    case Absent => saved == otherwise
  }

  /** A text given is saved without the blanks around it, and is not blank; one left out stays as stored. */
  predicate KeepsText(f: Field<string>, stored: Option<string>, saved: string) {
    match f
    case Given(text) => saved == Trim(text) && saved != ""
    case Absent => stored == Some(saved)
  }

  /** A value that must be there: as given, or as stored where left out. */
  predicate KeepsValue<T(==)>(f: Field<Option<T>>, stored: Option<T>, saved: T) {
    match f
    case Given(value) => value == Some(saved)
    case Absent => stored == Some(saved)
  }

  /** A text nothing but blanks, or missing with nothing stored. */
  predicate NoText(f: Field<string>, isStored: bool) {
    match f
    case Given(text) => Trim(text) == ""
    case Absent => !isStored
  }

  predicate NoValue<T(==)>(f: Field<Option<T>>, isStored: bool) {
    match f
    case Given(value) => value == None
    case Absent => !isStored
  }

  // ── Faults ──

  /** The order a row's faults are looked for in: each kind of row has some of them. */
  function Turn(e: FieldError): nat {
    match e
    case NoLabel => 0
    case NoDate => 1
    case PastDate => 2
    case NoVenueName => 3
    case NoVenueAddress => 4
    case HalfCoordinates => 5
    case BadLatitude => 6
    case BadLongitude => 7
    case EndsBeforeStart => 8
    case NoName => 9
    case NoPrice => 10
    case BadQuantity => 11
    case NoFieldType => 12
    case BadOptions => 13
    case NoTitle => 14
    case NoStart => 15
    case BadDuration => 16
    case NotADayOfThisEvent => 17
    case DayRequired => 18
    case NotOnItsDay => 19
  }

  // ── Days ──

  /** A place's text: as given, or as stored where left out; never blank. */
  predicate KeepsPlace(f: Field<string>, stored: Option<string>, saved: Option<string>) {
    && saved.Some? && saved.value != ""
    && match f
       case Given(text) => saved.value == Trim(text)
       case Absent => stored.Some? && saved.value == Trim(stored.value)
  }

  predicate NoPlace(f: Field<string>, stored: Option<string>) {
    match f
    case Given(text) => Trim(text) == ""
    case Absent => stored.None? || Trim(stored.value) == ""
  }

  /** Coordinates given are saved, the one left out of two as none; where neither is
      given they stay only while the address does. */
  predicate KeepsCoordinates(f: DayFields, stored: Option<Venue>, saved: Venue) {
    if f.latitude.Absent? && f.longitude.Absent? then
      if stored.Some? && stored.value.address == saved.address then
        saved.latitude == stored.value.latitude && saved.longitude == stored.value.longitude
      else saved.latitude.None? && saved.longitude.None?
    else Keeps(f.latitude, None, saved.latitude) && Keeps(f.longitude, None, saved.longitude)
  }

  predicate DayAsAsked(f: DayFields, stored: Option<Day>, saved: Day) {
    && KeepsText(f.dayLabel, if stored.Some? then Some(stored.value.dayLabel) else None, saved.dayLabel)
    && KeepsValue(f.date, if stored.Some? then Some(stored.value.date) else None, saved.date)
    && Keeps(f.startTime, if stored.Some? then stored.value.startTime else None, saved.startTime)
    && Keeps(f.endTime, if stored.Some? then stored.value.endTime else None, saved.endTime)
    && VenueAsAsked(f, VenueOf(stored), saved.venue)
  }

  function VenueOf(stored: Option<Day>): Option<Venue> {
    if stored.Some? then Some(stored.value.venue) else None
  }

  /** The number a field gives, where it gives one. */
  function Sent<T>(f: Field<Option<T>>): Option<T> {
    if f.Given? then f.value else None
  }

  /** The time a field leaves. */
  function Left(f: Field<Option<Time>>, stored: Option<Time>): Option<Time> {
    if f.Given? then f.value else stored
  }

  predicate DayFault(today: int, f: DayFields, stored: Option<Day>, e: FieldError) {
    var startTime := Left(f.startTime, if stored.Some? then stored.value.startTime else None);
    var endTime := Left(f.endTime, if stored.Some? then stored.value.endTime else None);
    match e
    case NoLabel => NoText(f.dayLabel, stored.Some?)
    case NoDate => NoValue(f.date, stored.Some?)
    case PastDate =>
      && Sent(f.date).Some? && Sent(f.date).value < today - 1
      && (stored.Some? ==> Sent(f.date).value != stored.value.date)
    case EndsBeforeStart => startTime.Some? && endTime.Some? && endTime.value <= startTime.value
    case _ => VenueFault(f, VenueOf(stored), e)
  }

  function MadeDay(today: int, f: DayFields, stored: Option<Day>): Result<Day, FieldError> {
    if stored.Some? then ChangedDay(today, f, stored.value) else NewDay(today, f)
  }

  function MadeVenue(f: DayFields, stored: Option<Venue>): Result<Venue, FieldError> {
    if stored.Some? then ChangedVenue(f, stored.value) else NewVenue(f)
  }

  predicate VenueAsAsked(f: DayFields, stored: Option<Venue>, saved: Venue) {
    && KeepsPlace(f.location, if stored.Some? then stored.value.location else None, saved.location)
    && KeepsPlace(f.address, if stored.Some? then stored.value.address else None, saved.address)
    && KeepsCoordinates(f, stored, saved)
  }

  predicate VenueFault(f: DayFields, stored: Option<Venue>, e: FieldError) {
    match e
    case NoVenueName => NoPlace(f.location, if stored.Some? then stored.value.location else None)
    case NoVenueAddress => NoPlace(f.address, if stored.Some? then stored.value.address else None)
    case HalfCoordinates => Sent(f.latitude).Some? != Sent(f.longitude).Some?
    case BadLatitude => Sent(f.latitude).Some? && (Sent(f.latitude).value < -90.0 || Sent(f.latitude).value > 90.0)
    case BadLongitude =>
      Sent(f.longitude).Some? && (Sent(f.longitude).value < -180.0 || Sent(f.longitude).value > 180.0)
    case _ => false
  }

  lemma {:induction false} VenueExactly(f: DayFields, stored: Option<Venue>)
    ensures MadeVenue(f, stored).Ok? <==> forall e :: !VenueFault(f, stored, e)
    ensures MadeVenue(f, stored).Err? ==>
              && VenueFault(f, stored, MadeVenue(f, stored).error)
              && (forall e :: VenueFault(f, stored, e) ==> Turn(MadeVenue(f, stored).error) <= Turn(e))
    ensures MadeVenue(f, stored).Ok? ==> VenueAsAsked(f, stored, MadeVenue(f, stored).value)
  {
    var made := MadeVenue(f, stored);
    assert Trim("") == "";
    assert made.Err? ==> VenueFault(f, stored, made.error);
  }

  /** A day is saved with every field as asked. */
  lemma {:induction false} DayIsAsAsked(today: int, f: DayFields, stored: Option<Day>)
    ensures MadeDay(today, f, stored).Ok? ==> DayAsAsked(f, stored, MadeDay(today, f, stored).value)
  {
    VenueExactly(f, VenueOf(stored));
  }

  lemma {:induction false} NewDayRefusal(today: int, f: DayFields)
    ensures NewDay(today, f).Ok? <==> forall e :: !DayFault(today, f, None, e)
    ensures NewDay(today, f).Err? ==>
              && DayFault(today, f, None, NewDay(today, f).error)
              && (forall e :: DayFault(today, f, None, e) ==> Turn(NewDay(today, f).error) <= Turn(e))
  {
    VenueExactly(f, None);
    assert Trim("") == "";
    assert NewDay(today, f).Err? ==> DayFault(today, f, None, NewDay(today, f).error);
  }

  lemma {:induction false} ChangedDayRefusal(today: int, f: DayFields, stored: Day)
    ensures ChangedDay(today, f, stored).Ok? <==> forall e :: !DayFault(today, f, Some(stored), e)
    ensures ChangedDay(today, f, stored).Err? ==>
              && DayFault(today, f, Some(stored), ChangedDay(today, f, stored).error)
              && (forall e :: DayFault(today, f, Some(stored), e) ==>
                    Turn(ChangedDay(today, f, stored).error) <= Turn(e))
  {
    VenueExactly(f, Some(stored.venue));
    assert ChangedDay(today, f, stored).Err? ==> DayFault(today, f, Some(stored), ChangedDay(today, f, stored).error);
  }

  /** A day is saved when it has no fault, and otherwise refused for its first. */
  lemma {:induction false} DayRefusedExactly(today: int, f: DayFields, stored: Option<Day>)
    ensures MadeDay(today, f, stored).Ok? <==> forall e :: !DayFault(today, f, stored, e)
    ensures MadeDay(today, f, stored).Err? ==>
              && DayFault(today, f, stored, MadeDay(today, f, stored).error)
              && (forall e :: DayFault(today, f, stored, e) ==> Turn(MadeDay(today, f, stored).error) <= Turn(e))
  {
    if stored.Some? {
      ChangedDayRefusal(today, f, stored.value);
    } else {
      NewDayRefusal(today, f);
    }
  }

  // ── Ticket types ──

  predicate TicketAsAsked(f: TicketFields, stored: Option<Ticket>, saved: Ticket) {
    && KeepsText(f.name, if stored.Some? then Some(stored.value.name) else None, saved.name)
    && Keeps(f.description, if stored.Some? then stored.value.description else None, saved.description)
    && KeepsValue(f.price, if stored.Some? then Some(stored.value.price) else None, saved.price)
    && Keeps(f.currency, if stored.Some? then stored.value.currency else "ZAR", saved.currency)
    && Keeps(f.totalQuantity, if stored.Some? then stored.value.totalQuantity else None, saved.totalQuantity)
    && (if stored.Some? then Keeps(f.isAvailable, stored.value.isAvailable, saved.isAvailable) else saved.isAvailable)
  }

  predicate TicketFault(f: TicketFields, stored: Option<Ticket>, e: FieldError) {
    match e
    case NoName => NoText(f.name, stored.Some?)
    case NoPrice => NoValue(f.price, stored.Some?) || (Sent(f.price).Some? && Sent(f.price).value < 0.0)
    case BadQuantity => Sent(f.totalQuantity).Some? && Sent(f.totalQuantity).value < 0
    case _ => false
  }

  function MadeTicket(f: TicketFields, stored: Option<Ticket>): Result<Ticket, FieldError> {
    if stored.Some? then ChangedTicket(f, stored.value) else NewTicket(f)
  }

  lemma {:induction false} TicketExactly(f: TicketFields, stored: Option<Ticket>)
    ensures MadeTicket(f, stored).Ok? <==> forall e :: !TicketFault(f, stored, e)
    ensures MadeTicket(f, stored).Err? ==>
              && TicketFault(f, stored, MadeTicket(f, stored).error)
              && (forall e :: TicketFault(f, stored, e) ==> Turn(MadeTicket(f, stored).error) <= Turn(e))
    ensures MadeTicket(f, stored).Ok? ==> TicketAsAsked(f, stored, MadeTicket(f, stored).value)
  {
    var made := MadeTicket(f, stored);
    assert Trim("") == "";
    assert made.Err? ==> TicketFault(f, stored, made.error);
  }

  // ── Questions ──

  predicate RsvpFieldAsAsked(order: nat, f: RsvpFieldFields, stored: Option<RsvpField>, saved: RsvpField) {
    && KeepsText(f.fieldLabel, if stored.Some? then Some(stored.value.fieldLabel) else None, saved.fieldLabel)
    && KeepsValue(f.fieldType, if stored.Some? then Some(stored.value.fieldType) else None, saved.fieldType)
    && Keeps(f.isRequired, stored.Some? && stored.value.isRequired, saved.isRequired)
    && Keeps(f.options, if stored.Some? then stored.value.options else None, saved.options)
    && saved.order == order
  }

  predicate RsvpFieldFault(isList: string -> bool, f: RsvpFieldFields, isStored: bool, e: FieldError) {
    match e
    case NoLabel => NoText(f.fieldLabel, isStored)
    case NoFieldType => NoValue(f.fieldType, isStored)
    case BadOptions => Sent(f.options).Some? && !isList(Sent(f.options).value)
    case _ => false
  }

  function MadeRsvpField(isList: string -> bool, order: nat, f: RsvpFieldFields,
      stored: Option<RsvpField>): Result<RsvpField, FieldError> {
    if stored.Some? then ChangedRsvpField(isList, order, f, stored.value) else NewRsvpField(isList, order, f)
  }

  lemma {:induction false} RsvpFieldExactly(isList: string -> bool, order: nat, f: RsvpFieldFields,
      stored: Option<RsvpField>)
    ensures MadeRsvpField(isList, order, f, stored).Ok? <==> forall e :: !RsvpFieldFault(isList, f, stored.Some?, e)
    ensures MadeRsvpField(isList, order, f, stored).Err? ==>
              && RsvpFieldFault(isList, f, stored.Some?, MadeRsvpField(isList, order, f, stored).error)
              && (forall e :: RsvpFieldFault(isList, f, stored.Some?, e) ==>
                    Turn(MadeRsvpField(isList, order, f, stored).error) <= Turn(e))
    ensures MadeRsvpField(isList, order, f, stored).Ok? ==>
              RsvpFieldAsAsked(order, f, stored, MadeRsvpField(isList, order, f, stored).value)
  {
    var made := MadeRsvpField(isList, order, f, stored);
    assert Trim("") == "";
    assert made.Err? ==> RsvpFieldFault(isList, f, stored.Some?, made.error);
  }

  // ── Program items ──

  /** An item is filed under the day at the position it names, on none when it names
      none, and where it says nothing on the day it was. */
  predicate KeepsDay(days: seq<ResultingDay>, f: Field<Option<int>>, stored: Option<DayRef>, saved: Option<DayRef>) {
    match f
    case Given(None) => saved.None?
    case Given(Some(n)) => 0 <= n < |days| && saved == Some(days[n].ref)
    case Absent => saved == stored
  }

  function DayOfItem(stored: Option<Item>): Option<DayRef> {
    if stored.Some? then stored.value.day else None
  }

  predicate ItemAsAsked(days: seq<ResultingDay>, order: nat, f: ItemFields, stored: Option<Item>, saved: Item) {
    && KeepsText(f.title, if stored.Some? then Some(stored.value.title) else None, saved.title)
    && Keeps(f.description, if stored.Some? then stored.value.description else None, saved.description)
    && KeepsValue(f.startTime, if stored.Some? then Some(stored.value.startTime) else None, saved.startTime)
    && Keeps(f.durationMins, if stored.Some? then stored.value.durationMins else None, saved.durationMins)
    && saved.order == order
    && KeepsDay(days, f.dayIndex, DayOfItem(stored), saved.day)
  }

  /** Position n is the day the item is on: the one it names, or else the first its stored day is. */
  predicate IsItsDay(days: seq<ResultingDay>, f: Field<Option<int>>, stored: Option<DayRef>, n: int) {
    && 0 <= n < |days|
    && match f
       case Given(index) => index == Some(n)
       case Absent => Some(days[n].ref) == stored && forall m :: 0 <= m < n ==> Some(days[m].ref) != stored
  }

  /** The instant falls on this day, from its midnight until the next. */
  predicate FallsOn(t: Time, date: int) {
    date * DAY_MS <= t < (date + 1) * DAY_MS
  }

  /** Something about when the item is, or on which day, is new. */
  predicate Moved(days: seq<ResultingDay>, f: ItemFields, stored: Option<Item>, n: int)
    requires 0 <= n < |days|
  {
    || stored.None? || days[n].dateChanged
    || (f.startTime.Given? && f.startTime.value != Some(stored.value.startTime))
    || (f.dayIndex.Given? && stored.value.day != Some(days[n].ref))
  }

  ghost predicate OffItsDay(days: seq<ResultingDay>, f: ItemFields, stored: Option<Item>) {
    var startTime := Left(f.startTime, if stored.Some? then Some(stored.value.startTime) else None);
    startTime.Some? && exists n ::
      && IsItsDay(days, f.dayIndex, DayOfItem(stored), n) && Moved(days, f, stored, n)
      && !FallsOn(startTime.value, days[n].date)
  }

  ghost predicate ItemFault(days: seq<ResultingDay>, f: ItemFields, stored: Option<Item>, e: FieldError) {
    match e
    case NoTitle => NoText(f.title, stored.Some?)
    case NoStart => NoValue(f.startTime, stored.Some?)
    case BadDuration => Sent(f.durationMins).Some? && Sent(f.durationMins).value < 0
    case NotADayOfThisEvent => Sent(f.dayIndex).Some? && !(0 <= Sent(f.dayIndex).value < |days|)
    case DayRequired => Sent(f.dayIndex).None? && (f.dayIndex.Given? || stored.None?) && |days| > 1
    case NotOnItsDay => OffItsDay(days, f, stored)
    case _ => false
  }

  function MadeItem(days: seq<ResultingDay>, order: nat, f: ItemFields,
      stored: Option<Item>): Result<Item, FieldError> {
    if stored.Some? then ChangedItem(days, order, f, stored.value) else NewItem(days, order, f)
  }

  lemma {:induction false} FoundDayIsFirst(days: seq<ResultingDay>, ref: DayRef)
    ensures FindDay(days, ref).None? ==> forall n :: 0 <= n < |days| ==> days[n].ref != ref
    ensures FindDay(days, ref).Some? ==>
              exists n :: IsItsDay(days, Absent, Some(ref), n) && FindDay(days, ref).value == days[n]
  {
    if days != [] && days[0].ref == ref {
      assert IsItsDay(days, Absent, Some(ref), 0);
    } else if days != [] {
      FoundDayIsFirst(days[1..], ref);
      if FindDay(days[1..], ref).Some? {
        var n :| IsItsDay(days[1..], Absent, Some(ref), n) && FindDay(days[1..], ref).value == days[1..][n];
        assert IsItsDay(days, Absent, Some(ref), n + 1);
      }
    }
  }

  lemma {:induction false} OnUtcDay(t: Time, date: int)
    ensures UtcDay(t) == date <==> FallsOn(t, date)
  {
  }

  /** An item is saved with every field as asked. */
  lemma {:induction false} ItemIsAsAsked(days: seq<ResultingDay>, order: nat, f: ItemFields, stored: Option<Item>)
    ensures MadeItem(days, order, f, stored).Ok? ==>
              ItemAsAsked(days, order, f, stored, MadeItem(days, order, f, stored).value)
  {
  }

  /** An item is off its day exactly when the rule that refuses it finds so. */
  lemma {:induction false} NewItemOffItsDay(days: seq<ResultingDay>, f: ItemFields)
    requires f.startTime.Given? && f.startTime.value.Some?
    requires ResolveDayIndex(Sent(f.dayIndex), days).Ok?
    ensures OffItsDay(days, f, None) <==>
              !StartsOn(f.startTime.value.value, ResolveDayIndex(Sent(f.dayIndex), days).value)
  {
    var t := f.startTime.value.value;
    if Sent(f.dayIndex).Some? {
      var n := Sent(f.dayIndex).value;
      OnUtcDay(t, days[n].date);
      assert IsItsDay(days, f.dayIndex, None, n);
    }
  }

  lemma {:induction false} NewItemRefusal(days: seq<ResultingDay>, order: nat, f: ItemFields)
    ensures NewItem(days, order, f).Ok? <==> forall e :: !ItemFault(days, f, None, e)
    ensures NewItem(days, order, f).Err? ==>
              && ItemFault(days, f, None, NewItem(days, order, f).error)
              && (forall e :: ItemFault(days, f, None, e) ==> Turn(NewItem(days, order, f).error) <= Turn(e))
  {
    assert Trim("") == "";
    if f.startTime.Given? && f.startTime.value.Some? && ResolveDayIndex(Sent(f.dayIndex), days).Ok? {
      NewItemOffItsDay(days, f);
    }
    assert NewItem(days, order, f).Err? ==> ItemFault(days, f, None, NewItem(days, order, f).error);
  }

  /** The day a change leaves the item on, as the rule looks it up. */
  function DayLeft(days: seq<ResultingDay>, f: ItemFields, stored: Item): Result<Option<ResultingDay>, FieldError> {
    if f.dayIndex.Given? then ResolveDayIndex(f.dayIndex.value, days)
    else Ok(if stored.day.Some? then FindDay(days, stored.day.value) else None)
  }

  lemma {:induction false} ChangedItemOffItsDay(days: seq<ResultingDay>, f: ItemFields, stored: Item)
    requires f.startTime.Given? ==> f.startTime.value.Some?
    requires DayLeft(days, f, stored).Ok?
    ensures var startTime := Left(f.startTime, Some(stored.startTime)).value;
            var day := DayLeft(days, f, stored).value;
            var ref := if f.dayIndex.Given? then RefOf(day) else stored.day;
            OffItsDay(days, f, Some(stored)) <==>
              (ref != stored.day || startTime != stored.startTime || (day.Some? && day.value.dateChanged))
              && !StartsOn(startTime, day)
  {
    var t := Left(f.startTime, Some(stored.startTime)).value;
    var day := DayLeft(days, f, stored).value;
    if f.dayIndex.Given? {
      if f.dayIndex.value.Some? {
        var n := f.dayIndex.value.value;
        OnUtcDay(t, days[n].date);
        assert IsItsDay(days, f.dayIndex, stored.day, n);
      }
    } else if stored.day.Some? {
      FoundDayIsFirst(days, stored.day.value);
      if day.Some? {
        var n :| IsItsDay(days, Absent, stored.day, n) && day.value == days[n];
        OnUtcDay(t, days[n].date);
      }
    }
  }

  lemma {:induction false} ChangedItemRefusal(days: seq<ResultingDay>, order: nat, f: ItemFields, stored: Item)
    ensures ChangedItem(days, order, f, stored).Ok? <==> forall e :: !ItemFault(days, f, Some(stored), e)
    ensures ChangedItem(days, order, f, stored).Err? ==>
              && ItemFault(days, f, Some(stored), ChangedItem(days, order, f, stored).error)
              && (forall e :: ItemFault(days, f, Some(stored), e) ==>
                    Turn(ChangedItem(days, order, f, stored).error) <= Turn(e))
  {
    if (f.startTime.Given? ==> f.startTime.value.Some?) && DayLeft(days, f, stored).Ok? {
      ChangedItemOffItsDay(days, f, stored);
    }
    assert ChangedItem(days, order, f, stored).Err? ==>
        ItemFault(days, f, Some(stored), ChangedItem(days, order, f, stored).error);
  }

  /** An item is saved when it has no fault, and otherwise refused for its first. */
  lemma {:induction false} ItemRefusedExactly(days: seq<ResultingDay>, order: nat, f: ItemFields, stored: Option<Item>)
    ensures MadeItem(days, order, f, stored).Ok? <==> forall e :: !ItemFault(days, f, stored, e)
    ensures MadeItem(days, order, f, stored).Err? ==>
              && ItemFault(days, f, stored, MadeItem(days, order, f, stored).error)
              && (forall e :: ItemFault(days, f, stored, e) ==> Turn(MadeItem(days, order, f, stored).error) <= Turn(e))
  {
    if stored.Some? {
      ChangedItemRefusal(days, order, f, stored.value);
    } else {
      NewItemRefusal(days, order, f);
    }
  }

  // ── The event's own row ──

  predicate EventAsAsked(f: EventFields, stored: EventRow, saved: EventRow) {
    && Keeps(f.name, stored.name, saved.name)
    && Keeps(f.description, stored.description, saved.description)
    && Keeps(f.coverImageUrl, stored.coverImageUrl, saved.coverImageUrl)
    && Keeps(f.coverImagePublicId, stored.coverImagePublicId, saved.coverImagePublicId)
    && Keeps(f.isPublic, stored.isPublic, saved.isPublic)
    && Keeps(f.isPaid, stored.isPaid, saved.isPaid)
    && (match f.hostName
        case Given(None) => saved.hostName.None?
        case Given(Some(text)) => if Trim(text) == "" then saved.hostName.None? else saved.hostName == Some(Trim(text))
        case Absent => saved.hostName == stored.hostName)
    && Keeps(f.rsvpDeadline, stored.rsvpDeadline, saved.rsvpDeadline)
    && Keeps(f.capacity, stored.capacity, saved.capacity)
    && Keeps(f.ticketsRefundable, stored.ticketsRefundable, saved.ticketsRefundable)
  }

  // ── Every field of every row, once saved ──

  function StoredAt<V>(table: Table<V>, id: Option<Id>): Option<V> {
    if id.Some? && id.value in table then Some(table[id.value].value) else None
  }

  /** Each position of the list is saved, live, under its own id or the one made up for
      it, with its fields as `asked` says; `asked` is given the position's row as stored. */
  ghost predicate SavedAs<F, V>(
    table: Table<V>, rows: seq<Row<F>>, ids: seq<Id>, after: Table<V>, asked: (nat, F, Option<V>, V) -> bool)
  {
    && NewRows(rows, |rows|) == |ids|
    && (forall k: nat {:trigger IdAt(rows, ids, k)} :: k < |rows| ==>
          && IdAt(rows, ids, k) in after && !after[IdAt(rows, ids, k)].isArchived
          && asked(k, rows[k].fields, StoredAt(table, rows[k].id), after[IdAt(rows, ids, k)].value))
  }

  /** What asking for a list's rows comes to, given what it does for one row. */
  lemma {:induction false} ReachedAs<F, V, E>(
    f: V -> V, rules: Rules<F, V, E>, table: Table<V>, rows: seq<Row<F>>, ids: seq<Id>, after: Table<V>,
    asked: (nat, F, Option<V>, V) -> bool)
    requires Named(table, rows) && NewRows(rows, |rows|) == |ids| && Reached(f, rules, table, rows, ids, after)
    requires forall k: nat :: k < |rows| && Wanted(rules, table, rows, k).Ok? ==>
               asked(k, rows[k].fields, StoredAt(table, rows[k].id), f(Wanted(rules, table, rows, k).value))
    ensures SavedAs(table, rows, ids, after, asked)
  {
  }

  ghost predicate DaysSavedAs(stored: Days, rows: seq<Row<DayFields>>, ids: seq<Id>, after: Days) {
    SavedAs(stored, rows, ids, after, (k: nat, f, was, saved) => DayAsAsked(f, was, saved))
  }

  ghost predicate TicketsSavedAs(
    stored: Table<Ticket>, rows: seq<Row<TicketFields>>, ids: seq<Id>, after: Table<Ticket>)
  {
    SavedAs(stored, rows, ids, after, (k: nat, f, was, saved) => TicketAsAsked(f, was, saved))
  }

  ghost predicate RsvpFieldsSavedAs(
    stored: Table<RsvpField>, rows: seq<Row<RsvpFieldFields>>, ids: seq<Id>, after: Table<RsvpField>)
  {
    SavedAs(stored, rows, ids, after, (k: nat, f, was, saved) => RsvpFieldAsAsked(k, f, was, saved))
  }

  /** The same days, each under the id it is saved with. */
  function AllSaved(days: seq<ResultingDay>, newDayIds: seq<Id>): seq<ResultingDay> {
    seq(|days|, n requires 0 <= n < |days| =>
      if days[n].ref.CreatedDay? && days[n].ref.index < |newDayIds|
      then days[n].(ref := DayRef.SavedDay(newDayIds[days[n].ref.index])) else days[n])
  }

  ghost predicate ItemsSavedAs(
    days: seq<ResultingDay>, stored: Table<Item>, rows: seq<Row<ItemFields>>, ids: seq<Id>, after: Table<Item>)
  {
    SavedAs(stored, rows, ids, after, (k: nat, f, was, saved) => ItemAsAsked(days, k, f, was, saved))
  }

  lemma {:induction false} DaysAreAsAsked(
    today: int, stored: Days, rows: seq<Row<DayFields>>, ids: seq<Id>, after: Days)
    requires ListReached(Same, DayRules(today), stored, Some(rows), ids, after)
    ensures DaysSavedAs(stored, rows, ids, after)
  {
    var asked := (k: nat, f, was, saved) => DayAsAsked(f, was, saved);
    forall k: nat | k < |rows| && Wanted(DayRules(today), stored, rows, k).Ok?
      ensures asked(k, rows[k].fields, StoredAt(stored, rows[k].id),
                    Same(Wanted(DayRules(today), stored, rows, k).value))
    {
      DayIsAsAsked(today, rows[k].fields, StoredAt(stored, rows[k].id));
    }
    ReachedAs(Same, DayRules(today), stored, rows, ids, after, asked);
  }

  lemma {:induction false} TicketsAreAsAsked(
    stored: Table<Ticket>, rows: seq<Row<TicketFields>>, ids: seq<Id>, after: Table<Ticket>)
    requires ListReached(Same, TicketRules(), stored, Some(rows), ids, after)
    ensures TicketsSavedAs(stored, rows, ids, after)
  {
    var asked := (k: nat, f, was, saved) => TicketAsAsked(f, was, saved);
    forall k: nat | k < |rows| && Wanted(TicketRules(), stored, rows, k).Ok?
      ensures asked(k, rows[k].fields, StoredAt(stored, rows[k].id), Same(Wanted(TicketRules(), stored, rows, k).value))
    {
      TicketExactly(rows[k].fields, StoredAt(stored, rows[k].id));
    }
    ReachedAs(Same, TicketRules(), stored, rows, ids, after, asked);
  }

  lemma {:induction false} RsvpFieldsAreAsAsked(
    isList: string -> bool, stored: Table<RsvpField>, rows: seq<Row<RsvpFieldFields>>, ids: seq<Id>,
    after: Table<RsvpField>)
    requires ListReached(Same, RsvpFieldRules(isList), stored, Some(rows), ids, after)
    ensures RsvpFieldsSavedAs(stored, rows, ids, after)
  {
    var asked := (k: nat, f, was, saved) => RsvpFieldAsAsked(k, f, was, saved);
    forall k: nat | k < |rows| && Wanted(RsvpFieldRules(isList), stored, rows, k).Ok?
      ensures asked(k, rows[k].fields, StoredAt(stored, rows[k].id),
                    Same(Wanted(RsvpFieldRules(isList), stored, rows, k).value))
    {
      RsvpFieldExactly(isList, k, rows[k].fields, StoredAt(stored, rows[k].id));
    }
    ReachedAs(Same, RsvpFieldRules(isList), stored, rows, ids, after, asked);
  }

  /** Filling in the ids of the days just created leaves an item on the day it was asked to be on. */
  lemma {:induction false} FilledItemIsAsAsked(
    days: seq<ResultingDay>, newDayIds: seq<Id>, order: nat, f: ItemFields, stored: Option<Item>, made: Item)
    requires ItemAsAsked(days, order, f, stored, made)
    requires DayOfItem(stored).Some? ==> DayOfItem(stored).value.SavedDay?
    ensures ItemAsAsked(AllSaved(days, newDayIds), order, f, stored, WithDayId(newDayIds, made))
  {
  }

  lemma {:induction false} ItemsAreAsAsked(
    days: seq<ResultingDay>, newDayIds: seq<Id>, stored: Table<Item>, rows: seq<Row<ItemFields>>, ids: seq<Id>,
    after: Table<Item>)
    requires ItemsNameSavedDays(stored)
    requires ListReached(FillDayIds(newDayIds), ItemRules(days), stored, Some(rows), ids, after)
    ensures ItemsSavedAs(AllSaved(days, newDayIds), stored, rows, ids, after)
  {
    var saved := AllSaved(days, newDayIds);
    var asked := (k: nat, f, was, item) => ItemAsAsked(saved, k, f, was, item);
    forall k: nat | k < |rows| && Wanted(ItemRules(days), stored, rows, k).Ok?
      ensures asked(k, rows[k].fields, StoredAt(stored, rows[k].id),
                    FillDayIds(newDayIds)(Wanted(ItemRules(days), stored, rows, k).value))
    {
      var was, made := StoredAt(stored, rows[k].id), Wanted(ItemRules(days), stored, rows, k).value;
      ItemIsAsAsked(days, k, rows[k].fields, was);
      FilledItemIsAsAsked(days, newDayIds, k, rows[k].fields, was, made);
    }
    ReachedAs(FillDayIds(newDayIds), ItemRules(days), stored, rows, ids, after, asked);
  }

  /** Every field of the event and of each of its rows is what the request gives,
      or what it was where the request says nothing. */
  ghost predicate AllAsAsked(
    stored: StoredEvent, request: Request, resulting: seq<ResultingDay>, ids: NewIds, after: StoredEvent)
  {
    && (if request.event.Some? then EventAsAsked(request.event.value, stored.event, after.event)
        else after.event == stored.event)
    && (if request.days.Some? then DaysSavedAs(stored.days, request.days.value, ids.days, after.days)
        else after.days == stored.days)
    && (if request.tickets.Some? then TicketsSavedAs(stored.tickets, request.tickets.value, ids.tickets, after.tickets)
        else after.tickets == stored.tickets)
    && (if request.rsvpFields.Some?
        then RsvpFieldsSavedAs(stored.rsvpFields, request.rsvpFields.value, ids.rsvpFields, after.rsvpFields)
        else after.rsvpFields == stored.rsvpFields)
    && (request.program.Some? && request.program.value.items.Some? ==>
          ItemsSavedAs(AllSaved(resulting, ids.days), StoredItems(stored), request.program.value.items.value, ids.items,
                       StoredItems(after)))
    && (request.program.Some? && request.program.value.items.None? ==> StoredItems(after) == StoredItems(stored))
  }

  lemma {:induction false} ListsAreAsAsked(
    env: Env, stored: StoredEvent, request: Request, resulting: seq<ResultingDay>, ids: NewIds, after: StoredEvent)
    requires EventReached(env, stored, request, resulting, ids, after)
    ensures request.days.Some? ==> DaysSavedAs(stored.days, request.days.value, ids.days, after.days)
    ensures request.tickets.Some? ==>
              TicketsSavedAs(stored.tickets, request.tickets.value, ids.tickets, after.tickets)
    ensures request.rsvpFields.Some? ==>
              RsvpFieldsSavedAs(stored.rsvpFields, request.rsvpFields.value, ids.rsvpFields, after.rsvpFields)
  {
    if request.days.Some? {
      DaysAreAsAsked(env.today, stored.days, request.days.value, ids.days, after.days);
    }
    if request.tickets.Some? {
      TicketsAreAsAsked(stored.tickets, request.tickets.value, ids.tickets, after.tickets);
    }
    if request.rsvpFields.Some? {
      RsvpFieldsAreAsAsked(env.isList, stored.rsvpFields, request.rsvpFields.value, ids.rsvpFields, after.rsvpFields);
    }
  }

  lemma {:induction false} ReachedIsAsAsked(
    env: Env, stored: StoredEvent, request: Request, resulting: seq<ResultingDay>, ids: NewIds, after: StoredEvent)
    requires EventReached(env, stored, request, resulting, ids, after) && ItemsNameSavedDays(StoredItems(stored))
    ensures AllAsAsked(stored, request, resulting, ids, after)
  {
    ListsAreAsAsked(env, stored, request, resulting, ids, after);
    if request.program.Some? && request.program.value.items.Some? {
      ItemsAreAsAsked(resulting, ids.days, StoredItems(stored), request.program.value.items.value, ids.items,
                      StoredItems(after));
    }
  }

  lemma {:induction false} EveryFieldIsAsAsked(
    env: Env, stored: StoredEvent, loaded: Loaded, request: Request, resulting: seq<ResultingDay>, plan: FullPlan,
    ids: NewIds, after: StoredEvent)
    requires Save(env, stored, loaded, request, resulting, plan, ids, after)
    ensures AllAsAsked(stored, request, resulting, ids, after)
  {
    SavingReachesTheRequest(env, stored, loaded, request, resulting, plan, ids, after);
    ReachedIsAsAsked(env, stored, request, resulting, ids, after);
  }

  // ── What a save never does ──

  lemma {:induction false} PositionsDiffer(env: Env, days: Days, rows: seq<Row<DayFields>>, ids: seq<Id>, after: Days,
      j: nat, k: nat)
    requires Named(days, rows) && NewRows(rows, |rows|) == |ids| && LabelsDistinct(env, days, rows)
    requires Reached(Same, DayRules(env.today), days, rows, ids, after)
    requires j < |rows| && k < |rows| && j != k
    ensures IdAt(rows, ids, j) in after && IdAt(rows, ids, k) in after
    ensures env.fold(Trim(after[IdAt(rows, ids, j)].value.dayLabel))
         != env.fold(Trim(after[IdAt(rows, ids, k)].value.dayLabel))
  {
    assert LabelAt(env, days, rows, j) == env.fold(Trim(after[IdAt(rows, ids, j)].value.dayLabel));
    assert LabelAt(env, days, rows, k) == env.fold(Trim(after[IdAt(rows, ids, k)].value.dayLabel));
  }

  lemma {:induction false} LiveDayIsAPosition(rules: Rules<DayFields, Day, FieldError>, days: Days,
      rows: seq<Row<DayFields>>, ids: seq<Id>, after: Days, id: Id) returns (k: nat)
    requires Named(days, rows) && NewRows(rows, |rows|) == |ids| && Reached(Same, rules, days, rows, ids, after)
    requires id in after && !after[id].isArchived
    ensures k < |rows| && IdAt(rows, ids, k) == id
  {
    k :| k < |rows| && IdAt(rows, ids, k) == id;
  }

  /** No two live days of a saved list have one label, blanks around it and case aside. */
  lemma {:induction false} LabelsDiffer(
    env: Env, stored: StoredEvent, loaded: Loaded, request: Request, resulting: seq<ResultingDay>, plan: FullPlan,
    ids: NewIds, after: StoredEvent, a: Id, b: Id)
    requires Save(env, stored, loaded, request, resulting, plan, ids, after) && request.days.Some?
    requires a in after.days && b in after.days && !after.days[a].isArchived && !after.days[b].isArchived && a != b
    ensures env.fold(Trim(after.days[a].value.dayLabel)) != env.fold(Trim(after.days[b].value.dayLabel))
  {
    var rows, rules := request.days.value, DayRules(env.today);
    ListsReached(env, stored, loaded, request, resulting, plan, ids, after);
    var j := LiveDayIsAPosition(rules, stored.days, rows, ids.days, after.days, a);
    var k := LiveDayIsAPosition(rules, stored.days, rows, ids.days, after.days, b);
    PositionsDiffer(env, stored.days, rows, ids.days, after.days, j, k);
  }

  /** Nothing is put into an archived program, and an archived hub is not opened. */
  lemma {:induction false} ArchivedPartsAreRefused(
    env: Env, stored: StoredEvent, loaded: Loaded, request: Request, resulting: seq<ResultingDay>, plan: FullPlan,
    ids: NewIds, after: StoredEvent)
    requires Save(env, stored, loaded, request, resulting, plan, ids, after)
    ensures stored.program.Some? && stored.program.value.isArchived ==> after.program == stored.program
    ensures stored.hub.Some? && stored.hub.value.isArchived ==> after.hub == stored.hub && request.opensAt.Absent?
  {
    SavingReachesTheRequest(env, stored, loaded, request, resulting, plan, ids, after);
  }
}
