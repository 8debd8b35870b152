/** The first free address for a new organisation, looked up twenty at a time. */
module SlugSearch {
  import opened Prelude
  import opened Text
  import opened TenantSlug

  const SLUG_SEARCH_BATCH: nat := 20
  const SLUG_SEARCH_LIMIT: nat := 1000

  /** The number of the first candidate in the nth one's batch. */
  function BatchOf(n: nat): nat
    requires n > 0
  {
    n - (n - 1) % SLUG_SEARCH_BATCH
  }

  /** The nth candidate is taken when its batch is looked up: `held` gives every
      organisation's address at the lookup that starts with a number. */
  predicate IsTaken(candidate: nat -> string, held: nat -> set<string>, n: nat)
    requires n > 0
  {
    candidate(n) in held(BatchOf(n))
  }

  predicate TakenBelow(candidate: nat -> string, held: nat -> set<string>, n: nat) {
    forall m :: 1 <= m < n ==> IsTaken(candidate, held, m)
  }

  lemma {:induction false} SameBatch(start: nat, i: nat)
    requires start % SLUG_SEARCH_BATCH == 1 && i < SLUG_SEARCH_BATCH
    ensures start + i > 0 && BatchOf(start + i) == start
  {
  }

  /** The first `found` of a batch being taken, so is every candidate up to there. */
  lemma {:induction false} TakenSoFar(candidate: nat -> string, held: nat -> set<string>, start: nat, found: nat)
    requires start % SLUG_SEARCH_BATCH == 1 && found <= SLUG_SEARCH_BATCH && TakenBelow(candidate, held, start)
    requires forall m: nat :: start <= m < start + found ==> candidate(m) in held(start)
    ensures TakenBelow(candidate, held, start + found)
  {
    forall m | 1 <= m < start + found ensures IsTaken(candidate, held, m) {
      if m >= start {
        SameBatch(start, m - start);
      }
    }
  }

  method FirstFree(candidates: seq<string>, taken: set<string>) returns (found: nat)
    ensures found <= |candidates| && (forall i :: 0 <= i < found ==> candidates[i] in taken)
    ensures found < |candidates| ==> candidates[found] !in taken
  {
    found := 0;
    while found < |candidates| && candidates[found] in taken
      invariant found <= |candidates| && (forall i :: 0 <= i < found ==> candidates[i] in taken)
    {
      found := found + 1;
    }
  }

  /** One lookup: how many candidates from `start` on are taken before a free one. */
  method LookUpBatch(candidate: nat -> string, held: nat -> set<string>, start: nat) returns (found: nat)
    requires start % SLUG_SEARCH_BATCH == 1 && TakenBelow(candidate, held, start)
    ensures found <= SLUG_SEARCH_BATCH && TakenBelow(candidate, held, start + found)
    ensures found < SLUG_SEARCH_BATCH ==> !IsTaken(candidate, held, start + found)
  {
    var candidates := seq(SLUG_SEARCH_BATCH, i requires 0 <= i < SLUG_SEARCH_BATCH => candidate(start + i));
    var taken := set c | c in candidates && c in held(start);
    found := FirstFree(candidates, taken);
    forall m: nat | start <= m < start + found ensures candidate(m) in held(start) {
      assert candidates[m - start] in taken;
    }
    TakenSoFar(candidate, held, start, found);
    if found < SLUG_SEARCH_BATCH {
      SameBatch(start, found);
      assert candidates[found] == candidate(start + found) && candidates[found] in candidates;
    }
  }

  method FindFirstFree(candidate: nat -> string, held: nat -> set<string>) returns (n: Option<nat>)
    ensures n.Some? ==> 1 <= n.value <= SLUG_SEARCH_LIMIT
    ensures n.Some? ==> !IsTaken(candidate, held, n.value) && TakenBelow(candidate, held, n.value)
    ensures n.None? ==> TakenBelow(candidate, held, SLUG_SEARCH_LIMIT + 1)
  {
    var start := 1;
    while start <= SLUG_SEARCH_LIMIT
      invariant start % SLUG_SEARCH_BATCH == 1 && 1 <= start <= SLUG_SEARCH_LIMIT + 1
      invariant TakenBelow(candidate, held, start)
    {
      var found := LookUpBatch(candidate, held, start);
      if found < SLUG_SEARCH_BATCH {
        return Some(start + found);
      }
      start := start + SLUG_SEARCH_BATCH;
    }
    return None;
  }

  function CandidatesOf(base: string): nat -> string {
    (n: nat) => SlugCandidate(base, n)
  }

  /** The lowest-numbered candidate not taken; none when all thousand are. */
  method FindFreeSlug(base: string, held: nat -> set<string>) returns (free: Option<string>)
    ensures free.Some? ==>
              exists n: nat :: 1 <= n <= SLUG_SEARCH_LIMIT && free.value == SlugCandidate(base, n)
                               && !IsTaken(CandidatesOf(base), held, n) && TakenBelow(CandidatesOf(base), held, n)
    ensures free.None? <==> TakenBelow(CandidatesOf(base), held, SLUG_SEARCH_LIMIT + 1)
  {
    var n := FindFirstFree(CandidatesOf(base), held);
    if n.None? {
      return None;
    }
    assert CandidatesOf(base)(n.value) == SlugCandidate(base, n.value);
    return Some(SlugCandidate(base, n.value));
  }

  // ── When every candidate is taken ──

  /** The candidates numbered 2 to n. */
  function Numbered(candidate: nat -> string, n: nat): set<string>
    requires n > 0
  {
    if n == 1 then {} else Numbered(candidate, n - 1) + {candidate(n)}
  }

  lemma {:induction false} NumberedHolds(candidate: nat -> string, n: nat, slug: string)
    requires n > 0
    ensures slug in Numbered(candidate, n) <==> exists m: nat :: 1 < m <= n && slug == candidate(m)
  {
    if n > 1 {
      NumberedHolds(candidate, n - 1, slug);
    }
  }

  lemma {:induction false} NumberedCount(candidate: nat -> string, n: nat)
    requires n > 0 && forall a: nat, b: nat :: 1 < a < b ==> candidate(a) != candidate(b)
    ensures |Numbered(candidate, n)| == n - 1
  {
    if n > 1 {
      NumberedCount(candidate, n - 1);
      NumberedHolds(candidate, n - 1, candidate(n));
    }
  }

  /** The first n candidates. */
  function Candidates(base: string, n: nat): set<string>
    requires n > 0
  {
    {base} + Numbered(CandidatesOf(base), n)
  }

  /** The base is one of its own candidates numbered up to `limit`. */
  ghost predicate RepeatsItself(base: string, limit: nat) {
    |base| >= TENANT_SLUG_MAX_CHARS - 1 && exists n :: 1 < n <= limit && EndsWith(base, Suffix(n))
  }

  lemma {:induction false} DigitsBelow(n: nat)
    requires n < 10_000
    ensures |Digits(n)| <= 4
  {
    assert |Digits(n / 1000)| == 1;
    assert Digits(n / 100 / 10) == Digits(n / 1000);
    assert |Digits(n / 100)| <= 2;
    assert |Digits(n / 10 / 10)| <= 2 && |Digits(n / 10)| <= 3;
  }

  lemma {:induction false} RepeatsAt(base: string, n: nat)
    requires IsSlug(base) && |base| <= TENANT_SLUG_MAX_CHARS && 1 < n < 10_000
    ensures CandidatesOf(base)(n) == base <==> |base| >= TENANT_SLUG_MAX_CHARS - 1 && EndsWith(base, Suffix(n))
  {
    DigitsBelow(n);
    CandidateRepeatsBaseExactly(base, n);
  }

  lemma {:induction false} RepeatsExactly(base: string, limit: nat)
    requires IsSlug(base) && |base| <= TENANT_SLUG_MAX_CHARS && 0 < limit < 10_000
    ensures base in Numbered(CandidatesOf(base), limit) <==> RepeatsItself(base, limit)
  {
    NumberedHolds(CandidatesOf(base), limit, base);
    if base in Numbered(CandidatesOf(base), limit) {
      var n: nat :| 1 < n <= limit && base == CandidatesOf(base)(n);
      RepeatsAt(base, n);
    }
    if RepeatsItself(base, limit) {
      var n :| 1 < n <= limit && EndsWith(base, Suffix(n));
      RepeatsAt(base, n);
    }
  }

  lemma {:induction false} NumberedApart(base: string)
    ensures forall a: nat, b: nat :: 1 < a < b ==> CandidatesOf(base)(a) != CandidatesOf(base)(b)
  {
    forall a: nat, b: nat | 1 < a < b ensures CandidatesOf(base)(a) != CandidatesOf(base)(b) {
      if SlugCandidate(base, a) == SlugCandidate(base, b) {
        NumberedCandidatesDiffer(base, a, b);
        assert false;
      }
    }
  }

  /** There are as many different addresses to try as candidates, or one fewer
      for a base that is one of its own numbered ones. */
  lemma {:induction false} CandidateCount(base: string, limit: nat)
    requires IsSlug(base) && |base| <= TENANT_SLUG_MAX_CHARS && 0 < limit < 10_000
    ensures |Candidates(base, limit)| == if RepeatsItself(base, limit) then limit - 1 else limit
  {
    NumberedApart(base);
    NumberedCount(CandidatesOf(base), limit);
    RepeatsExactly(base, limit);
    if RepeatsItself(base, limit) {
      assert Candidates(base, limit) == Numbered(CandidatesOf(base), limit);
    }
  }

  lemma {:induction false} AllTakenExactly(base: string, held: nat -> set<string>, addresses: set<string>, limit: nat)
    requires limit > 0 && forall start :: held(start) == addresses
    ensures TakenBelow(CandidatesOf(base), held, limit + 1) <==> Candidates(base, limit) <= addresses
  {
    var candidate, numbered := CandidatesOf(base), Numbered(CandidatesOf(base), limit);
    assert candidate(1) == base;
    if TakenBelow(candidate, held, limit + 1) {
      assert IsTaken(candidate, held, 1);
      forall slug | slug in numbered ensures slug in addresses {
        NumberedHolds(candidate, limit, slug);
        var m: nat :| 1 < m <= limit && slug == candidate(m);
        assert IsTaken(candidate, held, m);
      }
    }
    if Candidates(base, limit) <= addresses {
      forall n | 1 <= n < limit + 1 ensures IsTaken(candidate, held, n) {
        NumberedHolds(candidate, limit, candidate(n));
      }
    }
  }

  /** While the addresses held don't change, a sign-up is refused exactly when
      every candidate is held, which takes at least 999 organisations, and a
      thousand unless the base is one of its own numbered addresses. */
  lemma {:induction false} RefusedExactlyWhenAllHeld(base: string, held: nat -> set<string>, addresses: set<string>)
    requires IsSlug(base) && |base| <= TENANT_SLUG_MAX_CHARS
    requires forall start :: held(start) == addresses
    ensures TakenBelow(CandidatesOf(base), held, SLUG_SEARCH_LIMIT + 1) <==>
              Candidates(base, SLUG_SEARCH_LIMIT) <= addresses
    ensures TakenBelow(CandidatesOf(base), held, SLUG_SEARCH_LIMIT + 1) ==>
              |addresses| >= if RepeatsItself(base, SLUG_SEARCH_LIMIT) then SLUG_SEARCH_LIMIT - 1 else SLUG_SEARCH_LIMIT
  {
    AllTakenExactly(base, held, addresses, SLUG_SEARCH_LIMIT);
    CandidateCount(base, SLUG_SEARCH_LIMIT);
    if Candidates(base, SLUG_SEARCH_LIMIT) <= addresses {
      SubsetIsNoLarger(Candidates(base, SLUG_SEARCH_LIMIT), addresses);
    }
  }

  /** Fifty-seven letters and "-2": an address whose second candidate is itself. */
  function LongBase(): string {
    seq(57, _ => 'a') + "-2"
  }

  /** For it 999 organisations are enough: when they hold every address there is to try, its sign-up is refused. */
  lemma {:induction false} NineHundredNinetyNineAreEnough(held: nat -> set<string>, limit: nat)
    requires limit == SLUG_SEARCH_LIMIT && forall start :: held(start) == Candidates(LongBase(), limit)
    ensures IsSlug(LongBase()) && |LongBase()| == TENANT_SLUG_MAX_CHARS - 1
    ensures |Candidates(LongBase(), limit)| == limit - 1
    ensures TakenBelow(CandidatesOf(LongBase()), held, limit + 1)
  {
    var base := LongBase();
    forall k | 0 < k < |base| ensures base[k - 1] != '-' || base[k] != '-' {
      assert k != 57 ==> base[k] != '-';
    }
    assert Digits(2) == "2" && base[57..] == "-2";
    assert EndsWith(base, Suffix(2));
    CandidateCount(base, limit);
    AllTakenExactly(base, held, Candidates(base, limit), limit);
  }
}
