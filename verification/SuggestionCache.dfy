/** The address search's cache of suggestions: a map kept in order of use,
    with a limit on its size and on how long a suggestion is kept. */
module SuggestionCache {
  import opened Prelude
  import opened Text

  type Items = seq<string>

  const MIN_QUERY_LENGTH: nat := 3
  const SUGGESTION_CACHE_TTL_MS: int := 5 * 60 * 1000
  const SUGGESTION_CACHE_MAX_ENTRIES: nat := 500

  datatype Slot = Slot(key: string, items: Items, expiresAt: Time)

  // ── A map in insertion order ──

  /** Where a key stands, or the map's size when it isn't there. */
  function Find(cache: seq<Slot>, key: string): (i: nat)
    ensures i <= |cache| && (i < |cache| ==> cache[i].key == key) && (forall j :: 0 <= j < i ==> cache[j].key != key)
  {
    if cache == [] || cache[0].key == key then 0
    else
      var i := Find(cache[1..], key);
      assert forall j :: 0 < j <= i ==> cache[j] == cache[1..][j - 1] || j == |cache|;
      i + 1
  }

  predicate Has(cache: seq<Slot>, key: string) {
    Find(cache, key) < |cache|
  }

  function Delete(cache: seq<Slot>, key: string): seq<Slot> {
    var i := Find(cache, key);
    if i < |cache| then cache[..i] + cache[i + 1..] else cache
  }

  /** A key already there keeps its place. */
  function Set(cache: seq<Slot>, slot: Slot): seq<Slot> {
    var i := Find(cache, slot.key);
    if i < |cache| then cache[i := slot] else cache + [slot]
  }

  // ── Reading and writing the cache ──

  function Get(cache: seq<Slot>, key: string, now: Time): (seq<Slot>, Option<Items>) {
    if !Has(cache, key) then (cache, None)
    else
      var slot := cache[Find(cache, key)];
      if now > slot.expiresAt then (Delete(cache, key), None)
      else (Set(Delete(cache, key), slot), Some(slot.items))
  }

  function WithRoom(cache: seq<Slot>): seq<Slot> {
    if |cache| >= SUGGESTION_CACHE_MAX_ENTRIES then Delete(cache, cache[0].key) else cache
  }

  function Put(cache: seq<Slot>, key: string, items: Items, now: Time): seq<Slot> {
    Set(WithRoom(cache), Slot(key, items, now + SUGGESTION_CACHE_TTL_MS))
  }

  // ── What has been used and stored, on record ──

  datatype Use = Hit(key: string) | Stored(key: string, items: Items, at: Time)

  /** One after the place of a key's last use; 0 before any. */
  function LastUse(log: seq<Use>, key: string): (n: nat)
    ensures n <= |log| && (n > 0 ==> log[n - 1].key == key) && (forall k :: n <= k < |log| ==> log[k].key != key)
  {
    if log == [] then 0
    else if log[|log| - 1].key == key then |log|
    else
      var n := LastUse(log[..|log| - 1], key);
      assert forall k :: 0 <= k < |log| - 1 ==> log[..|log| - 1][k] == log[k];
      n
  }

  function LastStored(log: seq<Use>, key: string): Option<Use> {
    if log == [] then None
    else
      var last := log[|log| - 1];
      if last.Stored? && last.key == key then Some(last) else LastStored(log[..|log| - 1], key)
  }

  lemma {:induction false} UseOfMore(log: seq<Use>, use: Use, key: string)
    ensures LastUse(log + [use], key) == if use.key == key then |log| + 1 else LastUse(log, key)
    ensures LastStored(log + [use], key) == if use.Stored? && use.key == key then Some(use) else LastStored(log, key)
  {
    assert (log + [use])[..|log|] == log;
  }

  ghost predicate DistinctKeys(cache: seq<Slot>) {
    forall i, j :: 0 <= i < j < |cache| ==> cache[i].key != cache[j].key
  }

  /** Least recently used first. */
  ghost predicate InOrderOfUse(cache: seq<Slot>, log: seq<Use>) {
    forall i, j :: 0 <= i < j < |cache| ==> LastUse(log, cache[i].key) < LastUse(log, cache[j].key)
  }

  /** A slot holds what was last stored for its key, with the time it was stored. */
  predicate HoldsLastStored(slot: Slot, log: seq<Use>) {
    LastStored(log, slot.key) == Some(Stored(slot.key, slot.items, slot.expiresAt - SUGGESTION_CACHE_TTL_MS))
  }

  ghost predicate AllHoldLastStored(cache: seq<Slot>, log: seq<Use>) {
    forall i :: 0 <= i < |cache| ==> HoldsLastStored(cache[i], log)
  }

  ghost predicate Inv(cache: seq<Slot>, log: seq<Use>) {
    |cache| <= SUGGESTION_CACHE_MAX_ENTRIES && DistinctKeys(cache) && InOrderOfUse(cache, log) &&
        AllHoldLastStored(cache, log)
  }

  // ── One lookup ──

  /** A lookup of a key: read at `now`; on a miss the provider answers, or
      fails, and an answer is stored at `later`. */
  datatype Lookup = Lookup(key: string, now: Time, later: Time, answer: Option<Items>)

  datatype State = State(cache: seq<Slot>, log: seq<Use>)

  function Looked(s: State, l: Lookup): (State, Option<Items>) {
    var (cache, hit) := Get(s.cache, l.key, l.now);
    if hit.Some? then (State(cache, s.log + [Hit(l.key)]), hit)
    else if l.answer.None? then (State(cache, s.log), None)
    else (State(Put(cache, l.key, l.answer.value, l.later), s.log + [Stored(l.key, l.answer.value, l.later)]), l.answer)
  }

  // ── What each operation keeps ──

  /** Without one slot, the others stand as they did or one place earlier. */
  lemma {:induction false} WithoutOneKeeps(cache: seq<Slot>, at: nat, log: seq<Use>)
    requires Inv(cache, log) && at < |cache|
    ensures Inv(cache[..at] + cache[at + 1..], log)
    ensures !Has(cache[..at] + cache[at + 1..], cache[at].key)
  {
    var after := cache[..at] + cache[at + 1..];
    assert forall k :: 0 <= k < |after| ==> after[k] == cache[if k < at then k else k + 1];
  }

  lemma {:induction false} DeleteKeeps(cache: seq<Slot>, log: seq<Use>, key: string)
    requires Inv(cache, log)
    ensures Inv(Delete(cache, key), log) && !Has(Delete(cache, key), key)
    ensures Has(cache, key) ==> |Delete(cache, key)| == |cache| - 1
  {
    if Has(cache, key) {
      WithoutOneKeeps(cache, Find(cache, key), log);
    }
  }

  /** Putting a key the cache doesn't hold at the end, as its last use, keeps everything in order. */
  lemma {:induction false} AppendKeeps(cache: seq<Slot>, log: seq<Use>, slot: Slot, use: Use)
    requires Inv(cache, log) && !Has(cache, slot.key) && use.key == slot.key && |cache| < SUGGESTION_CACHE_MAX_ENTRIES
    requires HoldsLastStored(slot, log + [use])
    ensures Set(cache, slot) == cache + [slot] && Inv(cache + [slot], log + [use])
  {
    forall i | 0 <= i < |cache|
      ensures LastUse(log + [use], cache[i].key) == LastUse(log, cache[i].key) <= |log| &&
                HoldsLastStored(cache[i], log + [use])
    {
      assert cache[i].key != slot.key;
      UseOfMore(log, use, cache[i].key);
    }
    UseOfMore(log, use, slot.key);
  }

  lemma {:induction false} GetKeeps(cache: seq<Slot>, log: seq<Use>, key: string, now: Time)
    requires Inv(cache, log)
    ensures var (after, hit) := Get(cache, key, now);
            && Inv(after, if hit.Some? then log + [Hit(key)] else log)
            && (hit.None? ==> !Has(after, key))
  {
    DeleteKeeps(cache, log, key);
    if Has(cache, key) && now <= cache[Find(cache, key)].expiresAt {
      var slot := cache[Find(cache, key)];
      UseOfMore(log, Hit(key), key);
      AppendKeeps(Delete(cache, key), log, slot, Hit(key));
    }
  }

  lemma {:induction false} RoomMade(cache: seq<Slot>, log: seq<Use>, key: string)
    requires Inv(cache, log) && !Has(cache, key)
    ensures Inv(WithRoom(cache), log) && !Has(WithRoom(cache), key) && |WithRoom(cache)| < SUGGESTION_CACHE_MAX_ENTRIES
    ensures |cache| >= SUGGESTION_CACHE_MAX_ENTRIES ==> WithRoom(cache) == cache[1..]
  {
    if |cache| >= SUGGESTION_CACHE_MAX_ENTRIES {
      DeleteKeeps(cache, log, cache[0].key);
      assert WithRoom(cache) == cache[1..];
    }
  }

  lemma {:induction false} PutKeeps(cache: seq<Slot>, log: seq<Use>, key: string, items: Items, now: Time)
    requires Inv(cache, log) && !Has(cache, key)
    ensures Inv(Put(cache, key, items, now), log + [Stored(key, items, now)])
  {
    RoomMade(cache, log, key);
    UseOfMore(log, Stored(key, items, now), key);
    AppendKeeps(WithRoom(cache), log, Slot(key, items, now + SUGGESTION_CACHE_TTL_MS), Stored(key, items, now));
  }

  lemma {:induction false} LookupKeeps(s: State, l: Lookup)
    requires Inv(s.cache, s.log)
    ensures Inv(Looked(s, l).0.cache, Looked(s, l).0.log)
  {
    GetKeeps(s.cache, s.log, l.key, l.now);
    var (cache, hit) := Get(s.cache, l.key, l.now);
    if hit.None? && l.answer.Some? {
      PutKeeps(cache, s.log, l.key, l.answer.value, l.later);
    }
  }

  // ── Whole runs ──

  function Run(lookups: seq<Lookup>): State {
    if lookups == [] then State([], []) else Looked(Run(lookups[..|lookups| - 1]), lookups[|lookups| - 1]).0
  }

  lemma {:induction false} RunOfOneMore(lookups: seq<Lookup>, next: Lookup)
    ensures Run(lookups + [next]) == Looked(Run(lookups), next).0
  {
    assert (lookups + [next])[..|lookups|] == lookups;
  }

  /** Over any run of lookups, one after another: never more than 500 keys,
      each once, least recently used first, each with what was last stored for it. */
  lemma {:induction false} CacheStaysInOrder(lookups: seq<Lookup>)
    ensures Inv(Run(lookups).cache, Run(lookups).log) && |Run(lookups).cache| <= 500
  {
    if lookups != [] {
      CacheStaysInOrder(lookups[..|lookups| - 1]);
      LookupKeeps(Run(lookups[..|lookups| - 1]), lookups[|lookups| - 1]);
    }
  }

  /** After any run, a read gives exactly what was last stored for the key, and
      gives it exactly when the key is still held and was stored no more than
      five minutes ago; a read that gives nothing leaves the key out. */
  lemma {:induction false} HitIsLastStored(lookups: seq<Lookup>, key: string, now: Time)
    ensures var s := Run(lookups);
            var (after, hit) := Get(s.cache, key, now);
            var stored := LastStored(s.log, key);
            && (hit.Some? <==>
                  && Has(s.cache, key) && stored.Some? && stored.value.Stored?
                  && now <= stored.value.at + 5 * 60 * 1000)
            && (hit.Some? ==> stored.value.Stored? && hit.value == stored.value.items)
            && (hit.None? ==> !Has(after, key))
  {
    CacheStaysInOrder(lookups);
    var s := Run(lookups);
    GetKeeps(s.cache, s.log, key, now);
    if Has(s.cache, key) {
      assert HoldsLastStored(s.cache[Find(s.cache, key)], s.log);
    }
  }

  // ── Eviction ──

  function Keys(cache: seq<Slot>): set<string> {
    if cache == [] then {} else Keys(cache[..|cache| - 1]) + {cache[|cache| - 1].key}
  }

  lemma {:induction false} KeysHeld(cache: seq<Slot>, key: string)
    ensures key in Keys(cache) <==> exists i :: 0 <= i < |cache| && cache[i].key == key
  {
    if cache != [] {
      var fewer := cache[..|cache| - 1];
      KeysHeld(fewer, key);
      assert forall i :: 0 <= i < |fewer| ==> fewer[i] == cache[i];
    }
  }

  lemma {:induction false} KeyCount(cache: seq<Slot>)
    requires DistinctKeys(cache)
    ensures |Keys(cache)| == |cache|
  {
    if cache != [] {
      var fewer := cache[..|cache| - 1];
      assert forall i :: 0 <= i < |fewer| ==> fewer[i] == cache[i];
      KeyCount(fewer);
      KeysHeld(fewer, cache[|cache| - 1].key);
    }
  }

  /** The keys used after the first n uses. */
  function UsedSince(log: seq<Use>, n: nat): set<string> {
    set k | n <= k < |log| :: log[k].key
  }

  lemma {:induction false} OtherUsedSince(cache: seq<Slot>, log: seq<Use>, i: nat)
    requires 0 < i < |cache| && InOrderOfUse(cache, log)
    ensures cache[i].key in UsedSince(log, LastUse(log, cache[0].key))
  {
    var n := LastUse(log, cache[i].key);
    assert LastUse(log, cache[0].key) < n;
    assert log[n - 1].key == cache[i].key;
  }

  lemma {:induction false} OthersUsedSince(cache: seq<Slot>, log: seq<Use>)
    requires cache != [] && InOrderOfUse(cache, log)
    ensures Keys(cache[1..]) <= UsedSince(log, LastUse(log, cache[0].key))
  {
    forall key | key in Keys(cache[1..]) ensures key in UsedSince(log, LastUse(log, cache[0].key)) {
      KeysHeld(cache[1..], key);
      var i :| 0 <= i < |cache[1..]| && cache[1..][i].key == key;
      OtherUsedSince(cache, log, i + 1);
    }
  }

  lemma {:induction false} KeptUnlessFirst(cache: seq<Slot>, log: seq<Use>, key: string, items: Items, now: Time,
      kept: string)
    requires Inv(cache, log) && !Has(cache, key) && Has(cache, kept)
    requires |cache| < SUGGESTION_CACHE_MAX_ENTRIES || Find(cache, kept) > 0
    ensures Has(Put(cache, key, items, now), kept)
  {
    RoomMade(cache, log, key);
    var at := Find(cache, kept);
    var after := Put(cache, key, items, now);
    assert after[if |cache| < SUGGESTION_CACHE_MAX_ENTRIES then at else at - 1] == cache[at];
  }

  /** A key is pushed out only by storing a new one in a full cache; then it is
      the key used least recently of all those held, and at least 500 others
      have been used since it was. */
  lemma {:induction false} LeastRecentlyUsedGoes(cache: seq<Slot>, log: seq<Use>, key: string, items: Items, now: Time,
      gone: string)
    requires Inv(cache, log) && !Has(cache, key) && Has(cache, gone) && !Has(Put(cache, key, items, now), gone)
    ensures |cache| == 500
    ensures forall i :: 0 <= i < |cache| && cache[i].key != gone ==> LastUse(log, gone) < LastUse(log, cache[i].key)
    ensures |UsedSince(log + [Stored(key, items, now)], LastUse(log, gone))| >= SUGGESTION_CACHE_MAX_ENTRIES
  {
    RoomMade(cache, log, key);
    if |cache| < SUGGESTION_CACHE_MAX_ENTRIES || Find(cache, gone) > 0 {
      KeptUnlessFirst(cache, log, key, items, now, gone);
    }
    OthersAndNew(cache, log, key, Stored(key, items, now));
  }

  lemma {:induction false} OthersAndNew(cache: seq<Slot>, log: seq<Use>, key: string, use: Use)
    requires Inv(cache, log) && |cache| == SUGGESTION_CACHE_MAX_ENTRIES && !Has(cache, key) && use.key == key
    ensures |UsedSince(log + [use], LastUse(log, cache[0].key))| >= SUGGESTION_CACHE_MAX_ENTRIES
  {
    var others := Keys(cache[1..]);
    var since := UsedSince(log, LastUse(log, cache[0].key));
    OthersUsedSince(cache, log);
    KeyCount(cache[1..]);
    KeysHeld(cache[1..], key);
    assert key !in others;
    assert UsedSince(log + [use], LastUse(log, cache[0].key)) >= others + {key} by {
      assert (log + [use])[|log|] == use;
      forall k | k in others ensures k in UsedSince(log + [use], LastUse(log, cache[0].key)) {
        var i :| LastUse(log, cache[0].key) <= i < |log| && log[i].key == k;
        assert (log + [use])[i] == log[i];
      }
    }
    SubsetIsNoLarger(others + {key}, UsedSince(log + [use], LastUse(log, cache[0].key)));
  }

  // ── Two lookups at once ──

  /** Where keys stand after one is set, and when each was last used. */
  lemma {:induction false} AfterSet(room: seq<Slot>, log: seq<Use>, slot: Slot, use: Use)
    requires DistinctKeys(room) && use.key == slot.key
    ensures var after, at := Set(room, slot), Find(room, slot.key);
            && |after| == (if at < |room| then |room| else |room| + 1)
            && (forall i :: 0 <= i < |after| ==>
                  LastUse(log + [use], after[i].key) == if i == at then |log| + 1 else LastUse(log, room[i].key))
  {
    var after, at := Set(room, slot), Find(room, slot.key);
    forall i | 0 <= i < |after|
      ensures LastUse(log + [use], after[i].key) == if i == at then |log| + 1 else LastUse(log, room[i].key) {
      UseOfMore(log, use, after[i].key);
    }
  }

  /** When two lookups of one key are both waiting for the provider, the second
      finds the key already there. Room is made all the same, and the key keeps
      its place: the order of use survives exactly when, room made, the key is
      not there or is already the last. */
  lemma {:induction false} SetKeepsOrderExactly(cache: seq<Slot>, log: seq<Use>, key: string, items: Items, now: Time)
    requires Inv(cache, log)
    ensures InOrderOfUse(Put(cache, key, items, now), log + [Stored(key, items, now)]) <==>
            Find(WithRoom(cache), key) >= |WithRoom(cache)| - 1
  {
    var use, room := Stored(key, items, now), WithRoom(cache);
    RoomKeeps(cache, log);
    AfterSet(room, log, Slot(key, items, now + SUGGESTION_CACHE_TTL_MS), use);
    var after, at := Put(cache, key, items, now), Find(room, key);
    if at < |room| - 1 {
      assert LastUse(log + [use], after[at].key) == |log| + 1 > LastUse(log + [use], after[|room| - 1].key);
    }
  }

  lemma {:induction false} RoomKeeps(cache: seq<Slot>, log: seq<Use>)
    requires Inv(cache, log)
    ensures Inv(WithRoom(cache), log)
  {
    if |cache| >= SUGGESTION_CACHE_MAX_ENTRIES {
      DeleteKeeps(cache, log, cache[0].key);
    }
  }

  /** Two lookups of one key both miss; one stores it, another key is stored, and
      then the other lookup stores it again: used last, the key still stands first. */
  lemma {:induction false} TwoWaitingLookups(key: string, other: string, items: Items, now: Time)
    requires key != other
    ensures Get([], key, now) == ([], None)
    ensures var first := Put([], key, items, now);
            var both := Put(first, other, items, now);
            var again := Put(both, key, items, now);
            && Get(first, other, now).1.None?
            && InOrderOfUse(both, [Stored(key, items, now), Stored(other, items, now)])
            && !InOrderOfUse(again, [Stored(key, items, now), Stored(other, items, now), Stored(key, items, now)])
  {
    var a, b := Slot(key, items, now + SUGGESTION_CACHE_TTL_MS), Slot(other, items, now + SUGGESTION_CACHE_TTL_MS);
    var k, o := Stored(key, items, now), Stored(other, items, now);
    assert Put([], key, items, now) == [a];
    assert [a][1..] == [] && Find([a], other) == 1;
    assert Put([a], other, items, now) == [a, b];
    assert Find([a, b], key) == 0;
    assert Put([a, b], key, items, now) == [a, b];
    assert [k, o] == [k] + [o] && [k, o, k] == [k, o] + [k];
    UseOfMore([k], o, key);
    UseOfMore([k], o, other);
    UseOfMore([k, o], k, key);
    UseOfMore([k, o], k, other);
    assert [a, b][0].key == key && [a, b][1].key == other;
  }

  // ── The service ──

  datatype Refusal = TooShort | Unavailable

  class Suggestions {
    var entries: seq<Slot>
    ghost var log: seq<Use>

    constructor ()
      ensures entries == [] && log == []
    {
      entries, log := [], [];
    }

    method GetCached(key: string, now: Time) returns (items: Option<Items>)
      modifies this
      ensures (entries, items) == Get(old(entries), key, now)
      ensures log == if items.Some? then old(log) + [Hit(key)] else old(log)
    {
      if !Has(entries, key) {
        return None;
      }
      var entry := entries[Find(entries, key)];
      if now > entry.expiresAt {
        entries := Delete(entries, key);
        return None;
      }
      entries := Delete(entries, key);
      entries := Set(entries, entry);
      log := log + [Hit(key)];
      return Some(entry.items);
    }

    method SetCached(key: string, items: Items, now: Time)
      modifies this
      ensures entries == Put(old(entries), key, items, now) && log == old(log) + [Stored(key, items, now)]
    {
      if |entries| >= SUGGESTION_CACHE_MAX_ENTRIES {
        entries := Delete(entries, entries[0].key);
      }
      entries := Set(entries, Slot(key, items, now + SUGGESTION_CACHE_TTL_MS));
      log := log + [Stored(key, items, now)];
    }

    /** The provider's answer, if it is asked and doesn't fail, is `answer`. */
    method Autosuggest(lower: string -> string, rawQuery: string, now: Time, later: Time, answer: Option<Items>)
        returns (r: Result<Items, Refusal>)
      requires Inv(entries, log)
      modifies this
      ensures Inv(entries, log)
      ensures |Trim(rawQuery)| < 3 ==> r == Err(TooShort) && entries == old(entries) && log == old(log)
      ensures |Trim(rawQuery)| >= 3 ==>
                var looked := Looked(State(old(entries), old(log)), Lookup(lower(Trim(rawQuery)), now, later, answer));
                State(entries, log) == looked.0 && r == if looked.1.Some? then Ok(looked.1.value) else Err(Unavailable)
    {
      var query := Trim(rawQuery);
      if |query| < MIN_QUERY_LENGTH {
        return Err(TooShort);
      }
      var cacheKey := lower(query);
      LookupKeeps(State(entries, log), Lookup(cacheKey, now, later, answer));
      var cached := GetCached(cacheKey, now);
      if cached.Some? {
        return Ok(cached.value);
      }
      if answer.None? {
        return Err(Unavailable);
      }
      SetCached(cacheKey, answer.value, later);
      return Ok(answer.value);
    }
  }
}
