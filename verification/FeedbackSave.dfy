/** Saving the organiser's feedback form: each permission and the photo
    selection become what was asked, by appending only what changes. */
module FeedbackSave {
  import opened Prelude
  import opened Consent

  const EVENT_CONSENT_KINDS: seq<Kind> := [COMPANY_NAME_LOGO, QUOTE, CASE_STUDY_CONTACT]

  /** A permission left out is left alone; a selection left out likewise. */
  datatype Input = Input(permissions: map<Kind, bool>, selected: Option<set<ItemId>>)

  datatype Change = Change(kind: Kind, item: Option<ItemId>, granted: bool)

  function ChangeKey(c: Change): string {
    SubjectKey(c.kind, c.item)
  }

  predicate IsGranted(states: States, kind: Kind, item: Option<ItemId>) {
    StateOf(states, kind, item).granted
  }

  /** The photos selected now: the keys with the selection's prefix that are granted, decoded. */
  function SelectedPhotoIds(states: States): set<ItemId> {
    var prefix := SubjectKey(PHOTO_ORGANISER_SELECTED, None);
    set key | key in states && prefix <= key && states[key].granted :: key[|prefix|..]
  }

  /** Photo records name a photo, and permission records none. */
  predicate WellFormed(r: Record) {
    if r.kind in EVENT_CONSENT_KINDS then r.item.None? else r.item.Some? && r.item.value != ""
  }

  ghost predicate IsLog(log: seq<Record>) {
    InOrder(log) && forall r :: r in log ==> WellFormed(r)
  }

  lemma {:induction false} SelectedAreGranted(log: seq<Record>, id: ItemId)
    requires IsLog(log)
    ensures id in SelectedPhotoIds(FoldInOrder(log)) <==>
              id != "" && IsGranted(FoldInOrder(log), PHOTO_ORGANISER_SELECTED, Some(id))
  {
    var states := FoldInOrder(log);
    var prefix := SubjectKey(PHOTO_ORGANISER_SELECTED, None);
    assert SubjectKey(PHOTO_ORGANISER_SELECTED, Some(id)) == prefix + id;
    if id in SelectedPhotoIds(states) {
      var k :| k in states && prefix <= k && states[k].granted && k[|prefix|..] == id;
      assert k == prefix + id;
      SelectionKeysNameAPhoto(log, k);
    } else {
      assert (prefix + id)[|prefix|..] == id;
    }
  }

  lemma {:induction false} SelectionKeysNameAPhoto(log: seq<Record>, key: string)
    requires IsLog(log) && key in FoldInOrder(log) && SubjectKey(PHOTO_ORGANISER_SELECTED, None) <= key
    ensures key[|SubjectKey(PHOTO_ORGANISER_SELECTED, None)|..] != ""
  {
    FoldInOrderHasSubjects(log, key);
    var r :| r in log && KeyOf(r) == key;
    KeyPrefix(PHOTO_ORGANISER_SELECTED, r.kind, r.item);
  }

  // ── What a save appends ──

  /** The changes a save makes: what is asked and is not so already. */
  predicate IsWanted(states: States, input: Input, c: Change) {
    if c.kind == PHOTO_ORGANISER_SELECTED then
      c.item.Some? && input.selected.Some?
      && (c.granted <==> c.item.value in input.selected.value)
      && (c.granted <==> c.item.value !in SelectedPhotoIds(states))
      && (c.item.value in input.selected.value || c.item.value in SelectedPhotoIds(states))
    else
      c.item.None? && c.kind in EVENT_CONSENT_KINDS && c.kind in input.permissions &&
          c.granted == input.permissions[c.kind]
      && c.granted != IsGranted(states, c.kind, None)
  }

  /** Those changes, each once. */
  ghost predicate IsListing(states: States, input: Input, changes: seq<Change>) {
    && (forall c :: c in changes <==> IsWanted(states, input, c))
    && (forall m, n :: 0 <= m < n < |changes| ==> changes[m] != changes[n])
  }

  function LastSeq(log: seq<Record>): int {
    if log == [] then 0 else log[|log| - 1].seqNo
  }

  /** Appended in order, each with its kind's current wording. */
  function Append(log: seq<Record>, changes: seq<Change>, now: Time, wording: Kind -> nat): seq<Record> {
    if changes == [] then log
    else
      var before := Append(log, changes[..|changes| - 1], now, wording);
      before + [RecordFor(before, changes[|changes| - 1], now, wording)]
  }

  function RecordFor(log: seq<Record>, c: Change, now: Time, wording: Kind -> nat): Record {
    Record(LastSeq(log) + 1, c.kind, c.item, if c.granted then GRANTED else WITHDRAWN, wording(c.kind), now)
  }

  datatype Refusal = PhotoNotEligible

  predicate Selectable(states: States, input: Input, eligible: set<ItemId>) {
    input.selected.Some? ==> input.selected.value - SelectedPhotoIds(states) <= eligible
  }

  lemma {:induction false} SelectableExactly(states: States, input: Input, eligible: set<ItemId>)
    ensures !Selectable(states, input, eligible) <==>
              input.selected.Some? && exists id ::
                id in input.selected.value && id !in eligible && id !in SelectedPhotoIds(states)
  {
  }

  class ConsentLog {
    var records: seq<Record>

    constructor ()
      ensures records == []
    {
      records := [];
    }

    /** The permissions part of save, under the event's row lock. `eligible`
        are the photos that may be newly selected right now. */
    method Save(input: Input, eligible: set<ItemId>, now: Time, wording: Kind -> nat)
        returns (refusal: Option<Refusal>, changes: seq<Change>)
      requires IsLog(records)
      modifies this
      ensures refusal.None? <==> Selectable(FoldInOrder(old(records)), input, eligible)
      ensures refusal.Some? <==>
                input.selected.Some? && exists id ::
                  && id in input.selected.value && id !in eligible
                  && id !in SelectedPhotoIds(FoldInOrder(old(records)))
      ensures refusal.Some? ==> records == old(records)
      ensures refusal.None? ==>
                IsListing(FoldInOrder(old(records)), input, changes) &&
                    records == Append(old(records), changes, now, wording)
    {
      SortLeavesInOrder(records);
      var states := FoldConsentStates(records);
      SelectableExactly(states, input, eligible);
      changes := PermissionChanges(states, input);
      if input.selected.Some? {
        var current := SelectedPhotoIds(states);
        var added, removed := input.selected.value - current, current - input.selected.value;
        if !(added <= eligible) {
          return Some(PhotoNotEligible), [];
        }
        var more := PhotoChanges(added, true);
        var fewer := PhotoChanges(removed, false);
        changes := changes + more + fewer;
      }
      records := Append(records, changes, now, wording);
      return None, changes;
    }
  }

  method PermissionChanges(states: States, input: Input) returns (changes: seq<Change>)
    ensures forall c :: c in changes <==> c.kind != PHOTO_ORGANISER_SELECTED && IsWanted(states, input, c)
    ensures forall m, n :: 0 <= m < n < |changes| ==> changes[m] != changes[n]
  {
    changes := [];
    for n := 0 to |EVENT_CONSENT_KINDS|
      invariant forall c :: c in changes <==> c.kind in EVENT_CONSENT_KINDS[..n] && IsWanted(states, input, c)
      invariant forall i, j :: 0 <= i < j < |changes| ==> changes[i] != changes[j]
    {
      var kind := EVENT_CONSENT_KINDS[n];
      assert kind !in EVENT_CONSENT_KINDS[..n];
      if kind in input.permissions && input.permissions[kind] != IsGranted(states, kind, None) {
        changes := changes + [Change(kind, None, input.permissions[kind])];
      }
    }
  }

  method PhotoChanges(ids: set<ItemId>, granted: bool) returns (changes: seq<Change>)
    ensures forall c :: c in changes <==>
              c.kind == PHOTO_ORGANISER_SELECTED && c.item.Some? && c.item.value in ids && c.granted == granted
    ensures forall m, n :: 0 <= m < n < |changes| ==> changes[m] != changes[n]
  {
    changes := [];
    var left := ids;
    while left != {}
      invariant left <= ids
      invariant forall c :: c in changes <==>
                  c.kind == PHOTO_ORGANISER_SELECTED && c.item.Some? && c.item.value in ids - left &&
                      c.granted == granted
      invariant forall m, n :: 0 <= m < n < |changes| ==> changes[m] != changes[n]
      decreases |left|
    {
      var id :| id in left;
      changes := changes + [Change(PHOTO_ORGANISER_SELECTED, Some(id), granted)];
      left := left - {id};
    }
  }

  // ── What the states are afterwards ──

  /** An organiser's subject: a permission, or a named photo's selection. */
  predicate IsOrganisers(c: Change) {
    if c.kind == PHOTO_ORGANISER_SELECTED then c.item.Some? && c.item.value != ""
    else c.kind in EVENT_CONSENT_KINDS && c.item.None?
  }

  ghost predicate EachSubjectOnce(changes: seq<Change>) {
    && (forall c :: c in changes ==> IsOrganisers(c))
    && (forall m, n :: 0 <= m < n < |changes| ==> ChangeKey(changes[m]) != ChangeKey(changes[n]))
  }

  lemma {:induction false} ListingHasEachSubjectOnce(log: seq<Record>, input: Input, changes: seq<Change>)
    requires IsLog(log) && IsListing(FoldInOrder(log), input, changes)
    requires input.selected.Some? ==> "" !in input.selected.value
    ensures EachSubjectOnce(changes)
  {
    SelectedAreGranted(log, "");
    forall m, n | 0 <= m < n < |changes| ensures ChangeKey(changes[m]) != ChangeKey(changes[n]) {
      assert changes[m] in changes && changes[n] in changes;
      if ChangeKey(changes[m]) == ChangeKey(changes[n]) {
        KeysDiffer(changes[m].kind, changes[m].item, changes[n].kind, changes[n].item);
      }
    }
  }

  lemma {:induction false} AppendedIsALog(log: seq<Record>, changes: seq<Change>, now: Time, wording: Kind -> nat)
    requires IsLog(log) && forall c :: c in changes ==> IsOrganisers(c)
    ensures IsLog(Append(log, changes, now, wording))
  {
    if changes != [] {
      var before := Append(log, changes[..|changes| - 1], now, wording);
      AppendedIsALog(log, changes[..|changes| - 1], now, wording);
      assert changes[|changes| - 1] in changes;
      var r := RecordFor(before, changes[|changes| - 1], now, wording);
      assert WellFormed(r);
      AfterTheLast(before, r);
    }
  }

  lemma {:induction false} AfterTheLast(log: seq<Record>, r: Record)
    requires IsLog(log) && r.seqNo > LastSeq(log) && WellFormed(r)
    ensures IsLog(log + [r])
  {
  }

  lemma {:induction false} StateAfterOne(log: seq<Record>, r: Record, key: string)
    ensures StateIn(FoldInOrder(log + [r]), key) ==
            if KeyOf(r) == key then Moved(StateIn(FoldInOrder(log), key), r) else StateIn(FoldInOrder(log), key)
  {
    assert (log + [r])[..|log|] == log;
  }

  /** A subject none of the changes is about keeps its state. */
  lemma {:induction false} OtherSubjectsStay(log: seq<Record>, changes: seq<Change>, now: Time, wording: Kind -> nat,
      key: string)
    requires forall m :: 0 <= m < |changes| ==> ChangeKey(changes[m]) != key
    ensures StateIn(FoldInOrder(Append(log, changes, now, wording)), key) == StateIn(FoldInOrder(log), key)
  {
    if changes != [] {
      var before := Append(log, changes[..|changes| - 1], now, wording);
      OtherSubjectsStay(log, changes[..|changes| - 1], now, wording, key);
      StateAfterOne(before, RecordFor(before, changes[|changes| - 1], now, wording), key);
    }
  }

  function MovedTo(previous: State, c: Change, now: Time, wording: Kind -> nat): State {
    if c.granted then State(true, Some(now), Some(wording(c.kind)), None)
    else State(false, previous.givenAt, previous.wordingVersion, Some(now))
  }

  lemma {:induction false} LastSubjectMoves(log: seq<Record>, changes: seq<Change>, now: Time, wording: Kind -> nat,
      key: string)
    requires changes != []
    ensures var front, last := changes[..|changes| - 1], changes[|changes| - 1];
            var before := StateIn(FoldInOrder(Append(log, front, now, wording)), key);
            StateIn(FoldInOrder(Append(log, changes, now, wording)), key) ==
                if ChangeKey(last) == key then MovedTo(before, last, now, wording) else before
  {
    var front, last := changes[..|changes| - 1], changes[|changes| - 1];
    var before := Append(log, front, now, wording);
    StateAfterOne(before, RecordFor(before, last, now, wording), key);
  }

  ghost function StateAfter(log: seq<Record>, changes: seq<Change>, now: Time, wording: Kind -> nat,
      key: string): State {
    StateIn(FoldInOrder(Append(log, changes, now, wording)), key)
  }

  /** From its own change on a subject keeps its state. */
  lemma {:induction false} SubjectStays(log: seq<Record>, changes: seq<Change>, m: nat, now: Time,
      wording: Kind -> nat, key: string)
    requires m <= |changes| && forall n :: m <= n < |changes| ==> ChangeKey(changes[n]) != key
    ensures StateAfter(log, changes, now, wording, key) == StateAfter(log, changes[..m], now, wording, key)
    decreases |changes|
  {
    if |changes| == m {
      assert changes[..m] == changes;
    } else {
      var front := changes[..|changes| - 1];
      SubjectStays(log, front, m, now, wording, key);
      LastSubjectMoves(log, changes, now, wording, key);
      assert front[..m] == changes[..m];
    }
  }

  /** A change's own subject moves as it says. */
  lemma {:induction false} SubjectMoves(log: seq<Record>, changes: seq<Change>, now: Time, wording: Kind -> nat, m: nat)
    requires EachSubjectOnce(changes) && m < |changes|
    ensures var key := ChangeKey(changes[m]);
            StateIn(FoldInOrder(Append(log, changes, now, wording)), key) ==
                MovedTo(StateIn(FoldInOrder(log), key), changes[m], now, wording)
  {
    var key, upTo := ChangeKey(changes[m]), changes[..m + 1];
    SubjectStays(log, changes, m + 1, now, wording, key);
    LastSubjectMoves(log, upTo, now, wording, key);
    assert upTo[..m] == changes[..m];
    OtherSubjectsStay(log, changes[..m], now, wording, key);
  }

  ghost predicate IsSave(log: seq<Record>, input: Input, changes: seq<Change>, now: Time, wording: Kind -> nat,
      after: seq<Record>) {
    && IsLog(log) && IsListing(FoldInOrder(log), input, changes) && after == Append(log, changes, now, wording)
    && (input.selected.Some? ==> "" !in input.selected.value)
  }

  /** Every subject a save can be about: moved as wanted, or left with the very state it had. */
  lemma {:induction false} SubjectAfterSave(
    log: seq<Record>, input: Input, changes: seq<Change>, now: Time, wording: Kind -> nat, after: seq<Record>,
    kind: Kind, item: Option<ItemId>)
    requires IsSave(log, input, changes, now, wording, after)
    requires if kind in EVENT_CONSENT_KINDS then item.None? else item.Some? && item.value != ""
    ensures var before := FoldInOrder(log);
            var state := StateOf(FoldInOrder(after), kind, item);
            && (forall granted :: IsWanted(before, input, Change(kind, item, granted)) ==>
                  state == MovedTo(StateOf(before, kind, item), Change(kind, item, granted), now, wording))
            && ((forall granted :: !IsWanted(before, input, Change(kind, item, granted))) ==>
                state == StateOf(before, kind, item))
  {
    ListingHasEachSubjectOnce(log, input, changes);
    forall granted | IsWanted(FoldInOrder(log), input, Change(kind, item, granted))
      ensures StateOf(FoldInOrder(after), kind, item) ==
                MovedTo(StateOf(FoldInOrder(log), kind, item), Change(kind, item, granted), now, wording)
    {
      assert Change(kind, item, granted) in changes;
      var m :| 0 <= m < |changes| && changes[m] == Change(kind, item, granted);
      SubjectMoves(log, changes, now, wording, m);
    }
    if forall granted :: !IsWanted(FoldInOrder(log), input, Change(kind, item, granted)) {
      forall m | 0 <= m < |changes| ensures ChangeKey(changes[m]) != SubjectKey(kind, item) {
        NotThisSubject(log, input, changes, kind, item, m);
      }
      OtherSubjectsStay(log, changes, now, wording, SubjectKey(kind, item));
    }
  }

  lemma {:induction false} NotThisSubject(log: seq<Record>, input: Input, changes: seq<Change>, kind: Kind,
      item: Option<ItemId>, m: nat)
    requires EachSubjectOnce(changes) && IsListing(FoldInOrder(log), input, changes) && m < |changes|
    requires if kind in EVENT_CONSENT_KINDS then item.None? else item.Some? && item.value != ""
    requires forall granted :: !IsWanted(FoldInOrder(log), input, Change(kind, item, granted))
    ensures ChangeKey(changes[m]) != SubjectKey(kind, item)
  {
    var c := changes[m];
    assert c in changes;
    assert c == Change(c.kind, c.item, c.granted);
    if ChangeKey(c) == SubjectKey(kind, item) {
      KeysDiffer(c.kind, c.item, kind, item);
    }
  }

  /** Each permission named is what was asked, and each one left out has the very state it had. */
  lemma {:induction false} PermissionsAreAsAsked(
    log: seq<Record>, input: Input, changes: seq<Change>, now: Time, wording: Kind -> nat, after: seq<Record>,
    kind: Kind)
    requires IsSave(log, input, changes, now, wording, after) && kind in EVENT_CONSENT_KINDS
    ensures kind in input.permissions ==> IsGranted(FoldInOrder(after), kind, None) == input.permissions[kind]
    ensures kind in input.permissions && input.permissions[kind] != IsGranted(FoldInOrder(log), kind, None) ==>
              var was := StateOf(FoldInOrder(log), kind, None);
              StateOf(FoldInOrder(after), kind, None) ==
                if input.permissions[kind] then State(true, Some(now), Some(wording(kind)), None)
                else State(false, was.givenAt, was.wordingVersion, Some(now))
    ensures kind !in input.permissions || input.permissions[kind] == IsGranted(FoldInOrder(log), kind, None) ==>
              StateOf(FoldInOrder(after), kind, None) == StateOf(FoldInOrder(log), kind, None)
  {
    SubjectAfterSave(log, input, changes, now, wording, after, kind, None);
    var wanted := Change(kind, None, kind in input.permissions && input.permissions[kind]);
    assert IsWanted(FoldInOrder(log), input, wanted) || forall granted ::
        !IsWanted(FoldInOrder(log), input, Change(kind, None, granted));
  }

  /** A photo is selected afterwards exactly when it was asked for; one that was
      selected and stays so, and one that was neither, keep their state. */
  lemma {:induction false} SelectionIsAsAsked(
    log: seq<Record>, input: Input, changes: seq<Change>, now: Time, wording: Kind -> nat, after: seq<Record>,
    id: ItemId)
    requires IsSave(log, input, changes, now, wording, after) && id != ""
    ensures input.selected.Some? ==> (id in SelectedPhotoIds(FoldInOrder(after)) <==> id in input.selected.value)
    ensures input.selected.Some? && id in input.selected.value && id !in SelectedPhotoIds(FoldInOrder(log)) ==>
              StateOf(FoldInOrder(after), PHOTO_ORGANISER_SELECTED, Some(id)) ==
                State(true, Some(now), Some(wording(PHOTO_ORGANISER_SELECTED)), None)
    ensures input.selected.Some? && id !in input.selected.value && id in SelectedPhotoIds(FoldInOrder(log)) ==>
              var was := StateOf(FoldInOrder(log), PHOTO_ORGANISER_SELECTED, Some(id));
              StateOf(FoldInOrder(after), PHOTO_ORGANISER_SELECTED, Some(id)) ==
                State(false, was.givenAt, was.wordingVersion, Some(now))
    ensures input.selected.None? || (id in input.selected.value <==> id in SelectedPhotoIds(FoldInOrder(log))) ==>
              StateOf(FoldInOrder(after), PHOTO_ORGANISER_SELECTED, Some(id)) ==
                  StateOf(FoldInOrder(log), PHOTO_ORGANISER_SELECTED, Some(id))
  {
    ListingHasEachSubjectOnce(log, input, changes);
    AppendedIsALog(log, changes, now, wording);
    SelectedAreGranted(log, id);
    SelectedAreGranted(after, id);
    SubjectAfterSave(log, input, changes, now, wording, after, PHOTO_ORGANISER_SELECTED, Some(id));
    var wanted := Change(PHOTO_ORGANISER_SELECTED, Some(id), input.selected.Some? && id in input.selected.value);
    assert IsWanted(FoldInOrder(log), input, wanted)
           || forall granted :: !IsWanted(FoldInOrder(log), input, Change(PHOTO_ORGANISER_SELECTED, Some(id), granted));
  }

  /** A guest's own opt-in is no one's but the guest's. */
  lemma {:induction false} GuestSharingIsUntouched(
    log: seq<Record>, input: Input, changes: seq<Change>, now: Time, wording: Kind -> nat, after: seq<Record>,
    id: ItemId)
    requires IsSave(log, input, changes, now, wording, after) && id != ""
    ensures StateOf(FoldInOrder(after), PHOTO_GUEST_PUBLIC_SHARING, Some(id)) ==
              StateOf(FoldInOrder(log), PHOTO_GUEST_PUBLIC_SHARING, Some(id))
  {
    SubjectAfterSave(log, input, changes, now, wording, after, PHOTO_GUEST_PUBLIC_SHARING, Some(id));
  }

  /** Nothing asked for is left to do, so saving the same form again appends nothing. */
  lemma {:induction false} NothingWantedAgain(
    log: seq<Record>, input: Input, changes: seq<Change>, now: Time, wording: Kind -> nat, after: seq<Record>,
    c: Change)
    requires IsSave(log, input, changes, now, wording, after)
    ensures !IsWanted(FoldInOrder(after), input, c)
  {
    if c.kind == PHOTO_ORGANISER_SELECTED {
      ListingHasEachSubjectOnce(log, input, changes);
      AppendedIsALog(log, changes, now, wording);
      SelectedAreGranted(after, "");
      if c.item.Some? && c.item.value != "" {
        SelectionIsAsAsked(log, input, changes, now, wording, after, c.item.value);
      }
    } else if c.kind in EVENT_CONSENT_KINDS {
      PermissionsAreAsAsked(log, input, changes, now, wording, after, c.kind);
    }
  }

  lemma {:induction false} SavingAgainAppendsNothing(
    log: seq<Record>, input: Input, changes: seq<Change>, now: Time, wording: Kind -> nat, after: seq<Record>,
    again: seq<Change>)
    requires IsSave(log, input, changes, now, wording, after) && IsListing(FoldInOrder(after), input, again)
    ensures again == []
  {
    if again != [] {
      NothingWantedAgain(log, input, changes, now, wording, after, again[0]);
    }
  }

  // ── A withdrawal always has its grant ──

  /** One subject's actions, in order. */
  function History(log: seq<Record>, key: string): seq<Action> {
    if log == [] then []
    else
      var last := log[|log| - 1];
      History(log[..|log| - 1], key) + if KeyOf(last) == key then [last.action] else []
  }

  /** Granted and withdrawn in turn, a grant first. */
  predicate Alternates(history: seq<Action>) {
    history == []
    || (history[|history| - 1] == Turn(|history| - 1) && Alternates(history[..|history| - 1]))
  }

  function Turn(n: nat): Action {
    if n % 2 == 0 then GRANTED else WITHDRAWN
  }

  lemma {:induction false} OneMoreTurn(history: seq<Action>, action: Action)
    ensures Alternates(history + [action]) <==> Alternates(history) && action == Turn(|history|)
  {
    assert (history + [action])[..|history|] == history;
  }

  lemma {:induction false} HistoryOfOneMore(log: seq<Record>, r: Record, key: string)
    ensures History(log + [r], key) == if KeyOf(r) == key then History(log, key) + [r.action] else History(log, key)
  {
    assert (log + [r])[..|log|] == log;
  }

  /** What a state says of a history this long. */
  predicate Says(state: State, count: nat) {
    && (state.granted <==> count % 2 == 1)
    && (count > 0 ==> state.givenAt.Some? && state.wordingVersion.Some?)
    && (state.withdrawnAt.Some? <==> count > 0 && !state.granted)
  }

  /** With an alternating history, granted is an odd number of records, and a withdrawn subject still says
      what was given. */
  lemma {:induction false} AlternatingState(log: seq<Record>, key: string)
    requires Alternates(History(log, key))
    ensures Says(StateIn(FoldInOrder(log), key), |History(log, key)|)
  {
    if log != [] {
      var front, r := log[..|log| - 1], log[|log| - 1];
      assert log == front + [r];
      HistoryOfOneMore(front, r, key);
      OneMoreTurn(History(front, key), r.action);
      AlternatingState(front, key);
      StateAfterOne(front, r, key);
      SaysOneMore(StateIn(FoldInOrder(front), key), |History(front, key)|, r);
    }
  }

  lemma {:induction false} SaysOneMore(state: State, count: nat, r: Record)
    requires Says(state, count)
    ensures r.action == Turn(count) ==> Says(Moved(state, r), count + 1)
  {
  }

  /** A record of a subject alternates when it undoes what the subject's state is. */
  lemma {:induction false} OneMoreAlternates(log: seq<Record>, r: Record, key: string)
    requires Alternates(History(log, key)) && KeyOf(r) == key
    requires (r.action == GRANTED) != StateIn(FoldInOrder(log), key).granted
    ensures Alternates(History(log + [r], key))
  {
    AlternatingState(log, key);
    HistoryOfOneMore(log, r, key);
    OneMoreTurn(History(log, key), r.action);
  }

  /** A save appends to an organiser's subject only what undoes its state. */
  lemma {:induction false} SaveAlternates(
    log: seq<Record>, changes: seq<Change>, now: Time, wording: Kind -> nat, key: string)
    requires EachSubjectOnce(changes) && Alternates(History(log, key))
    requires forall m :: 0 <= m < |changes| && ChangeKey(changes[m]) == key ==>
               changes[m].granted != StateIn(FoldInOrder(log), key).granted
    ensures Alternates(History(Append(log, changes, now, wording), key))
  {
    if changes != [] {
      var front, last := changes[..|changes| - 1], changes[|changes| - 1];
      var before := Append(log, front, now, wording);
      var r := RecordFor(before, last, now, wording);
      SaveAlternates(log, front, now, wording, key);
      if KeyOf(r) == key {
        OtherSubjectsStay(log, front, now, wording, key);
        OneMoreAlternates(before, r, key);
      } else {
        HistoryOfOneMore(before, r, key);
      }
    }
  }

  datatype Step =
    | SaveStep(input: Input, changes: seq<Change>, now: Time, wording: Kind -> nat)
    | GuestStep(id: ItemId, granted: bool, now: Time, wordingVersion: nat)

  /** Saves under the event's lock, and guests' own opt-ins, whose records are never an organiser's. */
  ghost predicate Enabled(log: seq<Record>, step: Step) {
    match step
    case SaveStep(input, changes, _, _) => IsListing(FoldInOrder(log), input, changes) &&
        (input.selected.Some? ==> "" !in input.selected.value)
    case GuestStep(id, _, _, _) => id != ""
  }

  function Next(log: seq<Record>, step: Step): seq<Record> {
    match step
    case SaveStep(_, changes, now, wording) => Append(log, changes, now, wording)
    case GuestStep(id, granted, now, version) =>
      log + [Record(LastSeq(log) + 1, PHOTO_GUEST_PUBLIC_SHARING, Some(id), if granted then GRANTED
                    else WITHDRAWN, version, now)]
  }

  /** A guest's opt-in or withdrawal moves their own sharing of that photo as they say, and nothing else. */
  lemma {:induction false} GuestDecides(log: seq<Record>, id: ItemId, granted: bool, now: Time, version: nat,
      key: string)
    requires id != ""
    ensures var before, after := FoldInOrder(log), FoldInOrder(Next(log, GuestStep(id, granted, now, version)));
            var was := StateOf(before, PHOTO_GUEST_PUBLIC_SHARING, Some(id));
            && StateOf(after, PHOTO_GUEST_PUBLIC_SHARING, Some(id)) ==
               (if granted then State(true, Some(now), Some(version), None)
                else State(false, was.givenAt, was.wordingVersion, Some(now)))
            && (key != SubjectKey(PHOTO_GUEST_PUBLIC_SHARING, Some(id)) ==> StateIn(after, key) == StateIn(before, key))
  {
    var r := Record(LastSeq(log) + 1, PHOTO_GUEST_PUBLIC_SHARING, Some(id), if granted then GRANTED else WITHDRAWN,
                    version, now);
    StateAfterOne(log, r, key);
    StateAfterOne(log, r, SubjectKey(PHOTO_GUEST_PUBLIC_SHARING, Some(id)));
  }

  ghost predicate Run(log: seq<Record>, steps: seq<Step>)
    decreases |steps|
  {
    steps == [] || (Enabled(log, steps[0]) && Run(Next(log, steps[0]), steps[1..]))
  }

  function After(log: seq<Record>, steps: seq<Step>): seq<Record>
    decreases |steps|
  {
    if steps == [] then log else After(Next(log, steps[0]), steps[1..])
  }

  lemma {:induction false} WantedUndoesItsState(log: seq<Record>, input: Input, c: Change)
    requires IsLog(log) && IsWanted(FoldInOrder(log), input, c) && IsOrganisers(c)
    ensures c.granted != StateIn(FoldInOrder(log), ChangeKey(c)).granted
  {
    if c.kind == PHOTO_ORGANISER_SELECTED {
      SelectedAreGranted(log, c.item.value);
    }
  }

  lemma {:induction false} SaveKeepsHistories(
    log: seq<Record>, input: Input, changes: seq<Change>, now: Time, wording: Kind -> nat, key: string)
    requires IsSave(log, input, changes, now, wording, Append(log, changes, now, wording)) &&
               Alternates(History(log, key))
    ensures IsLog(Append(log, changes, now, wording)) && Alternates(History(Append(log, changes, now, wording), key))
  {
    ListingHasEachSubjectOnce(log, input, changes);
    AppendedIsALog(log, changes, now, wording);
    forall m | 0 <= m < |changes| && ChangeKey(changes[m]) == key
      ensures changes[m].granted != StateIn(FoldInOrder(log), key).granted {
      assert changes[m] in changes;
      WantedUndoesItsState(log, input, changes[m]);
    }
    SaveAlternates(log, changes, now, wording, key);
  }

  lemma {:induction false} GuestsRecordIsNotAnOrganisers(log: seq<Record>, step: Step, kind: Kind, item: Option<ItemId>)
    requires IsLog(log) && Enabled(log, step) && step.GuestStep? && kind != PHOTO_GUEST_PUBLIC_SHARING
    ensures IsLog(Next(log, step)) &&
              History(Next(log, step), SubjectKey(kind, item)) == History(log, SubjectKey(kind, item))
  {
    var r := Record(LastSeq(log) + 1, PHOTO_GUEST_PUBLIC_SHARING, Some(step.id), if step.granted then GRANTED
                    else WITHDRAWN, step.wordingVersion, step.now);
    NotTheGuestsKey(kind, item, step.id);
    assert WellFormed(r);
    AfterTheLast(log, r);
    HistoryOfOneMore(log, r, SubjectKey(kind, item));
  }

  lemma {:induction false} NotTheGuestsKey(kind: Kind, item: Option<ItemId>, id: ItemId)
    requires kind != PHOTO_GUEST_PUBLIC_SHARING
    ensures SubjectKey(PHOTO_GUEST_PUBLIC_SHARING, Some(id)) != SubjectKey(kind, item)
  {
    if SubjectKey(PHOTO_GUEST_PUBLIC_SHARING, Some(id)) == SubjectKey(kind, item) {
      KeysDiffer(PHOTO_GUEST_PUBLIC_SHARING, Some(id), kind, item);
    }
  }

  lemma {:induction false} StepKeepsHistories(log: seq<Record>, step: Step, kind: Kind, item: Option<ItemId>)
    requires IsLog(log) && Enabled(log, step) && kind != PHOTO_GUEST_PUBLIC_SHARING &&
               Alternates(History(log, SubjectKey(kind, item)))
    ensures IsLog(Next(log, step)) && Alternates(History(Next(log, step), SubjectKey(kind, item)))
  {
    if step.SaveStep? {
      SaveKeepsHistories(log, step.input, step.changes, step.now, step.wording, SubjectKey(kind, item));
    } else {
      GuestsRecordIsNotAnOrganisers(log, step, kind, item);
    }
  }

  /** Over any saves and opt-ins, each organiser's subject is granted and withdrawn
      in turn, a grant first; so a withdrawn one still carries its grant. */
  lemma {:induction false} WithdrawnAlwaysCarriesItsGrant(log: seq<Record>, steps: seq<Step>, kind: Kind,
      item: Option<ItemId>)
    requires IsLog(log) && Run(log, steps) && kind != PHOTO_GUEST_PUBLIC_SHARING &&
               Alternates(History(log, SubjectKey(kind, item)))
    ensures var after := After(log, steps);
            var state := StateOf(FoldInOrder(after), kind, item);
            && Alternates(History(after, SubjectKey(kind, item)))
            && (state.withdrawnAt.Some? ==> !state.granted && state.givenAt.Some? && state.wordingVersion.Some?)
    decreases |steps|
  {
    if steps == [] {
      AlternatingState(log, SubjectKey(kind, item));
    } else {
      StepKeepsHistories(log, steps[0], kind, item);
      WithdrawnAlwaysCarriesItsGrant(Next(log, steps[0]), steps[1..], kind, item);
    }
  }
}
