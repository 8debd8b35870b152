/** Consent records: appended, never changed; a subject's state is its latest record's. */
module Consent {
  import opened Prelude

  type ItemId = string

  datatype Kind = COMPANY_NAME_LOGO | QUOTE | CASE_STUDY_CONTACT | PHOTO_ORGANISER_SELECTED | PHOTO_GUEST_PUBLIC_SHARING

  datatype Action = GRANTED | WITHDRAWN

  datatype Record = Record(seqNo: int, kind: Kind, item: Option<ItemId>, action: Action, wordingVersion: nat,
                           recordedAt: Time)

  /** NOT_GIVEN is a subject with no record: absent from the map. */
  datatype State = State(granted: bool, givenAt: Option<Time>, wordingVersion: Option<nat>, withdrawnAt: Option<Time>)

  const NOT_GIVEN: State := State(false, None, None, None)

  type States = map<string, State>

  // ── Subject keys ──

  function KindName(kind: Kind): string {
    match kind
    case COMPANY_NAME_LOGO => "COMPANY_NAME_LOGO"
    case QUOTE => "QUOTE"
    case CASE_STUDY_CONTACT => "CASE_STUDY_CONTACT"
    case PHOTO_ORGANISER_SELECTED => "PHOTO_ORGANISER_SELECTED"
    case PHOTO_GUEST_PUBLIC_SHARING => "PHOTO_GUEST_PUBLIC_SHARING"
  }

  function SubjectKey(kind: Kind, item: Option<ItemId>): string {
    KindName(kind) + ":" + if item.Some? then item.value else ""
  }

  /** A key starts with a kind's prefix exactly when it is that kind's, and the rest of it is the photo. */
  lemma {:induction false} KeyPrefix(kind: Kind, other: Kind, item: Option<ItemId>)
    ensures SubjectKey(kind, None) <= SubjectKey(other, item) <==> kind == other
    ensures kind == other ==> SubjectKey(other, item)[|SubjectKey(kind, None)|..] == if item.Some? then item.value
                                                                                     else ""
  {
    var prefix, key := SubjectKey(kind, None), SubjectKey(other, item);
    if kind != other {
      DifferentPrefixes(kind, other);
      var d :| 0 <= d < |prefix| && d < |SubjectKey(other, None)| && prefix[d] != SubjectKey(other, None)[d];
      assert key[d] == SubjectKey(other, None)[d];
    }
  }

  lemma {:induction false} DifferentPrefixes(kind: Kind, other: Kind)
    requires kind != other
    ensures exists d :: 0 <= d < |SubjectKey(kind, None)| && d < |SubjectKey(other, None)| &&
              SubjectKey(kind, None)[d] != SubjectKey(other, None)[d]
  {
    var a, b := SubjectKey(kind, None), SubjectKey(other, None);
    if a[0] != b[0] {
    } else if a[1] != b[1] {
    } else {
      assert a[6] != b[6];
    }
  }

  lemma {:induction false} KeysDiffer(a: Kind, x: Option<ItemId>, b: Kind, y: Option<ItemId>)
    requires SubjectKey(a, x) == SubjectKey(b, y)
    ensures a == b && (if x.Some? then x.value else "") == (if y.Some? then y.value else "")
  {
    KeyPrefix(a, b, y);
    KeyPrefix(a, a, x);
  }

  // ── Folding ──

  predicate InOrder(records: seq<Record>) {
    forall m, n :: 0 <= m < n < |records| ==> records[m].seqNo < records[n].seqNo
  }

  predicate DistinctSeqs(records: seq<Record>) {
    forall m, n :: 0 <= m < n < |records| ==> records[m].seqNo != records[n].seqNo
  }

  function Insert(r: Record, sorted: seq<Record>): seq<Record> {
    if sorted == [] || r.seqNo <= sorted[0].seqNo then [r] + sorted else [sorted[0]] + Insert(r, sorted[1..])
  }

  function SortBySeq(records: seq<Record>): seq<Record> {
    if records == [] then [] else Insert(records[0], SortBySeq(records[1..]))
  }

  function KeyOf(r: Record): string {
    SubjectKey(r.kind, r.item)
  }

  function StateIn(states: States, key: string): State {
    if key in states then states[key] else NOT_GIVEN
  }

  /** One record on top of its subject's state: a withdrawal keeps the grant it withdrew. */
  function Moved(previous: State, r: Record): State {
    if r.action == GRANTED then State(true, Some(r.recordedAt), Some(r.wordingVersion), None)
    else State(false, previous.givenAt, previous.wordingVersion, Some(r.recordedAt))
  }

  function FoldInOrder(records: seq<Record>): States {
    if records == [] then map[]
    else
      var before := FoldInOrder(records[..|records| - 1]);
      var r := records[|records| - 1];
      before[KeyOf(r) := Moved(StateIn(before, KeyOf(r)), r)]
  }

  function Fold(records: seq<Record>): States {
    FoldInOrder(SortBySeq(records))
  }

  method FoldConsentStates(records: seq<Record>) returns (states: States)
    ensures states == Fold(records)
  {
    states := map[];
    var sorted := SortBySeq(records);
    for n := 0 to |sorted|
      invariant states == FoldInOrder(sorted[..n])
    {
      var key := KeyOf(sorted[n]);
      states := states[key := Moved(StateIn(states, key), sorted[n])];
      assert sorted[..n + 1][..n] == sorted[..n];
    }
    assert sorted[..|sorted|] == sorted;
  }

  function StateOf(states: States, kind: Kind, item: Option<ItemId>): State {
    StateIn(states, SubjectKey(kind, item))
  }

  // ── The fold is each subject's latest record ──

  lemma {:induction false} ConsInOrder(r: Record, rest: seq<Record>)
    requires InOrder(rest) && forall s :: s in rest ==> r.seqNo < s.seqNo
    ensures InOrder([r] + rest)
  {
    assert forall m :: 0 <= m < |rest| ==> rest[m] in rest;
  }

  lemma {:induction false} InsertKeeps(r: Record, sorted: seq<Record>)
    requires InOrder(sorted) && forall s :: s in sorted ==> s.seqNo != r.seqNo
    ensures InOrder(Insert(r, sorted))
    ensures forall s :: s in Insert(r, sorted) <==> s == r || s in sorted
  {
    if sorted != [] {
      var rest := sorted[1..];
      assert sorted == [sorted[0]] + rest;
      assert forall s :: s in rest ==> sorted[0].seqNo < s.seqNo;
      if r.seqNo <= sorted[0].seqNo {
        ConsInOrder(r, sorted);
      } else {
        InsertKeeps(r, rest);
        ConsInOrder(sorted[0], Insert(r, rest));
      }
    }
  }

  lemma {:induction false} SortSorts(records: seq<Record>)
    requires DistinctSeqs(records)
    ensures InOrder(SortBySeq(records))
    ensures forall r :: r in SortBySeq(records) <==> r in records
  {
    if records != [] {
      var rest := records[1..];
      SortSorts(rest);
      assert forall m :: 0 <= m < |rest| ==> rest[m] == records[m + 1];
      InsertKeeps(records[0], SortBySeq(rest));
      assert records == [records[0]] + rest;
    }
  }

  lemma {:induction false} SortLeavesInOrder(records: seq<Record>)
    requires InOrder(records)
    ensures SortBySeq(records) == records
  {
    if records != [] {
      SortLeavesInOrder(records[1..]);
    }
  }

  /** `r` is the last record of its subject, so far as these records go. */
  ghost predicate IsLatest(records: seq<Record>, key: string, r: Record) {
    r in records && KeyOf(r) == key && forall s :: s in records && KeyOf(s) == key ==> s.seqNo <= r.seqNo
  }

  ghost predicate IsLatestGrant(records: seq<Record>, key: string, r: Record) {
    && r in records && KeyOf(r) == key && r.action == GRANTED
    && forall s :: s in records && KeyOf(s) == key && s.action == GRANTED ==> s.seqNo <= r.seqNo
  }

  /** What a subject's state should be, whatever order the records come in. */
  ghost predicate IsStateFrom(records: seq<Record>, key: string, state: State) {
    if forall r :: r in records ==> KeyOf(r) != key then state == NOT_GIVEN
    else
      exists r :: IsLatest(records, key, r)
        && state.granted == (r.action == GRANTED)
        && state.withdrawnAt == (if r.action == GRANTED then None else Some(r.recordedAt))
        && GivenFrom(records, key, state)
  }

  ghost predicate GivenFrom(records: seq<Record>, key: string, state: State) {
    if forall r :: r in records && KeyOf(r) == key ==> r.action != GRANTED
    then state.givenAt.None? && state.wordingVersion.None?
    else
      exists g ::
        && IsLatestGrant(records, key, g)
        && state.givenAt == Some(g.recordedAt)
        && state.wordingVersion == Some(g.wordingVersion)
  }

  ghost predicate HasSubject(records: seq<Record>, key: string) {
    exists r :: r in records && KeyOf(r) == key
  }

  lemma {:induction false} SubjectsOfOneMore(front: seq<Record>, r: Record, key: string)
    ensures HasSubject(front + [r], key) <==> HasSubject(front, key) || KeyOf(r) == key
  {
    assert r in front + [r];
    forall s | s in front && KeyOf(s) == key ensures HasSubject(front + [r], key) {
      assert s in front + [r];
    }
  }

  lemma {:induction false} SplitLast(records: seq<Record>)
    requires InOrder(records) && records != []
    ensures records == records[..|records| - 1] + [records[|records| - 1]]
    ensures InOrder(records[..|records| - 1])
    ensures forall s :: s in records[..|records| - 1] ==> s.seqNo < records[|records| - 1].seqNo
  {
  }

  lemma {:induction false} FoldInOrderHasSubjects(records: seq<Record>, key: string)
    ensures key in FoldInOrder(records) <==> HasSubject(records, key)
  {
    if records != [] {
      var front, r := records[..|records| - 1], records[|records| - 1];
      assert records == front + [r];
      FoldInOrderHasSubjects(front, key);
      SubjectsOfOneMore(front, r, key);
    }
  }

  lemma {:induction false} FoldInOrderIsLatest(records: seq<Record>, key: string)
    requires InOrder(records)
    ensures IsStateFrom(records, key, StateIn(FoldInOrder(records), key))
  {
    if records != [] {
      var front, r := records[..|records| - 1], records[|records| - 1];
      SplitLast(records);
      FoldInOrderIsLatest(front, key);
      if KeyOf(r) == key {
        LatestIsTheNewest(front, r, key, StateIn(FoldInOrder(front), key));
      } else {
        OthersKeepTheirState(front, r, key, StateIn(FoldInOrder(front), key));
      }
    }
  }

  lemma {:induction false} LatestIsTheNewest(front: seq<Record>, r: Record, key: string, state: State)
    requires (forall s :: s in front ==> s.seqNo < r.seqNo) && KeyOf(r) == key && IsStateFrom(front, key, state)
    ensures IsStateFrom(front + [r], key, Moved(state, r))
  {
    assert IsLatest(front + [r], key, r);
    if r.action == GRANTED {
      assert IsLatestGrant(front + [r], key, r);
    } else {
      GivenStays(front, r, key, state, Moved(state, r));
    }
  }

  /** A record that grants nothing of a subject's leaves what it was given as it was. */
  lemma {:induction false} GivenStays(front: seq<Record>, r: Record, key: string, state: State, next: State)
    requires IsStateFrom(front, key, state) && !(KeyOf(r) == key && r.action == GRANTED)
    requires next.givenAt == state.givenAt && next.wordingVersion == state.wordingVersion
    ensures GivenFrom(front + [r], key, next)
  {
    forall g | g in front && KeyOf(g) == key && g.action == GRANTED ensures GivenFrom(front + [r], key, next) {
      var latest :| IsLatestGrant(front, key, latest) && state.givenAt == Some(latest.recordedAt) &&
          state.wordingVersion == Some(latest.wordingVersion);
      assert IsLatestGrant(front + [r], key, latest);
    }
  }

  lemma {:induction false} OthersKeepTheirState(front: seq<Record>, r: Record, key: string, state: State)
    requires (forall s :: s in front ==> s.seqNo < r.seqNo) && KeyOf(r) != key && IsStateFrom(front, key, state)
    ensures IsStateFrom(front + [r], key, state)
  {
    forall s | s in front && KeyOf(s) == key ensures IsStateFrom(front + [r], key, state) {
      var latest :| IsLatest(front, key, latest) && state.granted == (latest.action == GRANTED)
        && state.withdrawnAt == (if latest.action == GRANTED then None else Some(latest.recordedAt)) &&
            GivenFrom(front, key, state);
      assert IsLatest(front + [r], key, latest);
      GivenStays(front, r, key, state, state);
    }
  }

  /** The fold of any records, in any order, is each subject's highest-numbered record. */
  lemma {:induction false} FoldIsLatest(records: seq<Record>, key: string)
    requires DistinctSeqs(records)
    ensures IsStateFrom(records, key, StateIn(Fold(records), key))
    ensures key in Fold(records) <==> HasSubject(records, key)
  {
    SortSorts(records);
    FoldInOrderIsLatest(SortBySeq(records), key);
    FoldInOrderHasSubjects(SortBySeq(records), key);
    SameRecordsSameState(SortBySeq(records), records, key, StateIn(Fold(records), key));
  }

  lemma {:induction false} SameRecordsSameState(a: seq<Record>, b: seq<Record>, key: string, state: State)
    requires (forall r :: r in a <==> r in b) && IsStateFrom(a, key, state)
    ensures IsStateFrom(b, key, state)
  {
    forall r ensures IsLatest(a, key, r) <==> IsLatest(b, key, r) {
    }
    forall r ensures IsLatestGrant(a, key, r) <==> IsLatestGrant(b, key, r) {
    }
  }

  lemma {:induction false} StateFromIsUnique(records: seq<Record>, key: string, a: State, b: State)
    requires DistinctSeqs(records) && IsStateFrom(records, key, a) && IsStateFrom(records, key, b)
    ensures a == b
  {
    forall r, s | r in records && s in records && r.seqNo == s.seqNo ensures r == s {
      var m :| 0 <= m < |records| && records[m] == r;
      var n :| 0 <= n < |records| && records[n] == s;
    }
  }

  /** The order records are read in does not matter. */
  lemma {:induction false} FoldIgnoresOrder(a: seq<Record>, b: seq<Record>)
    requires DistinctSeqs(a) && DistinctSeqs(b) && forall r :: r in a <==> r in b
    ensures Fold(a) == Fold(b)
  {
    forall key ensures (key in Fold(a) <==> key in Fold(b)) && StateIn(Fold(a), key) == StateIn(Fold(b), key) {
      FoldIsLatest(a, key);
      FoldIsLatest(b, key);
      SameRecordsSameState(a, b, key, StateIn(Fold(a), key));
      StateFromIsUnique(b, key, StateIn(Fold(a), key), StateIn(Fold(b), key));
    }
    forall key | key in Fold(a) ensures Fold(a)[key] == Fold(b)[key] {
      assert StateIn(Fold(a), key) == StateIn(Fold(b), key);
    }
  }
}
