/** A rolling 24-hour allowance over an append-only log: what was claimed in
    the last 24 hours is counted, under a lock, before each new claim. */
module RollingWindow {
  import opened Prelude

  datatype Entry = Entry(at: Time, count: nat)

  /** The rows at or after `since`, oldest first. */
  function FindSince(log: seq<Entry>, since: Time): seq<Entry> {
    if log == [] then []
    else
      var last := log[|log| - 1];
      FindSince(log[..|log| - 1], since) + if last.at >= since then [last] else []
  }

  function Total(log: seq<Entry>): nat {
    if log == [] then 0 else Total(log[..|log| - 1]) + log[|log| - 1].count
  }

  /** What was claimed from one instant to another, both included. */
  function Between(log: seq<Entry>, from: Time, to: Time): nat {
    if log == [] then 0
    else
      var last := log[|log| - 1];
      Between(log[..|log| - 1], from, to) + if from <= last.at <= to then last.count else 0
  }

  /** The closed 24-hour window that starts at an instant. */
  function InWindow(log: seq<Entry>, start: Time): nat {
    Between(log, start, start + DAY_MS)
  }

  predicate InOrder(log: seq<Entry>) {
    forall m, n :: 0 <= m < n < |log| ==> log[m].at <= log[n].at
  }

  predicate AllBy(log: seq<Entry>, now: Time) {
    forall m :: 0 <= m < |log| ==> log[m].at <= now
  }

  /** No closed 24-hour window holds more than the limit. */
  ghost predicate WithinLimit(log: seq<Entry>, limit: nat) {
    forall start :: InWindow(log, start) <= limit
  }

  function Used(log: seq<Entry>, now: Time): nat {
    Total(FindSince(log, now - DAY_MS))
  }

  /** One claim under the lock: counted and appended, or refused whole. */
  function Claim(log: seq<Entry>, limit: nat, count: nat, now: Time): seq<Entry> {
    if Used(log, now) + count <= limit then log + [Entry(now, count)] else log
  }

  datatype Attempt = Attempt(count: nat, now: Time)

  /** The log after attempts made one after another, each accepted or refused. */
  function After(log: seq<Entry>, limit: nat, attempts: seq<Attempt>): seq<Entry>
    decreases |attempts|
  {
    if attempts == [] then log else After(Claim(log, limit, attempts[0].count, attempts[0].now), limit, attempts[1..])
  }

  /** The clock never runs back. */
  predicate InTime(log: seq<Entry>, attempts: seq<Attempt>) {
    && (forall m, n :: 0 <= m < |log| && 0 <= n < |attempts| ==> log[m].at <= attempts[n].now)
    && (forall m, n :: 0 <= m < n < |attempts| ==> attempts[m].now <= attempts[n].now)
  }

  // ── Every window ──

  lemma {:induction false} TotalOfJoined(a: seq<Entry>, b: seq<Entry>)
    ensures Total(a + b) == Total(a) + Total(b)
  {
    if b == [] {
      assert a + b == a;
    } else {
      TotalOfJoined(a, b[..|b| - 1]);
      assert (a + b)[..|a + b| - 1] == a + b[..|b| - 1];
    }
  }

  /** While nothing is later than now, what a window that reaches now holds was counted. */
  lemma {:induction false} WindowIsCounted(log: seq<Entry>, now: Time, start: Time)
    requires AllBy(log, now) && start <= now <= start + DAY_MS
    ensures InWindow(log, start) <= Used(log, now)
  {
    if log != [] {
      var last := log[|log| - 1];
      WindowIsCounted(log[..|log| - 1], now, start);
      var before := FindSince(log[..|log| - 1], now - DAY_MS);
      TotalOfJoined(before, [last]);
      assert before + [] == before;
      assert Total([last]) == last.count;
    }
  }

  lemma {:induction false} ClaimKeepsLimit(log: seq<Entry>, limit: nat, count: nat, now: Time)
    requires WithinLimit(log, limit) && AllBy(log, now)
    ensures WithinLimit(Claim(log, limit, count, now), limit) && AllBy(Claim(log, limit, count, now), now)
  {
    var after := Claim(log, limit, count, now);
    if after != log {
      assert after[..|log|] == log;
      forall start ensures InWindow(after, start) <= limit {
        assert InWindow(log, start) <= limit;
        if start <= now <= start + DAY_MS {
          WindowIsCounted(log, now, start);
        }
      }
    }
  }

  /** Whatever is attempted, and however sends race for the lock, no 24 hours exceed the limit. */
  lemma {:induction false} EveryWindowIsWithinLimit(log: seq<Entry>, limit: nat, attempts: seq<Attempt>)
    requires WithinLimit(log, limit) && InTime(log, attempts)
    ensures WithinLimit(After(log, limit, attempts), limit)
    decreases |attempts|
  {
    if attempts != [] {
      var now := attempts[0].now;
      forall m | 0 <= m < |log| ensures log[m].at <= now {
      }
      ClaimKeepsLimit(log, limit, attempts[0].count, now);
      EveryWindowIsWithinLimit(Claim(log, limit, attempts[0].count, now), limit, attempts[1..]);
    }
  }

  // ── When room comes back ──

  /** Where the rows at or after an instant begin. */
  function FirstSince(log: seq<Entry>, since: Time): (k: nat)
    ensures k <= |log|
  {
    if log == [] then 0
    else if log[|log| - 1].at < since then |log|
    else FirstSince(log[..|log| - 1], since)
  }

  lemma {:induction false} FirstSinceIsFirst(log: seq<Entry>, since: Time)
    requires InOrder(log)
    ensures var k := FirstSince(log, since);
            && (forall m :: 0 <= m < k ==> log[m].at < since)
            && (k < |log| ==> log[k].at >= since)
  {
    if log != [] && log[|log| - 1].at >= since {
      FirstSinceIsFirst(log[..|log| - 1], since);
    }
  }

  lemma {:induction false} NoneSince(log: seq<Entry>, since: Time)
    requires forall m :: 0 <= m < |log| ==> log[m].at < since
    ensures FindSince(log, since) == []
  {
    if log != [] {
      NoneSince(log[..|log| - 1], since);
    }
  }

  lemma {:induction false} FindSinceIsTheEnd(log: seq<Entry>, since: Time)
    requires InOrder(log)
    ensures FindSince(log, since) == log[FirstSince(log, since)..]
  {
    if log != [] {
      var front, last := log[..|log| - 1], log[|log| - 1];
      if last.at < since {
        NoneSince(log, since);
      } else {
        FindSinceIsTheEnd(front, since);
        assert log[FirstSince(front, since)..] == front[FirstSince(front, since)..] + [last];
      }
    }
  }

  /** Where the window begins only moves forward, and past the oldest row once that is out of it. */
  lemma {:induction false} WindowMovesForward(log: seq<Entry>, since: Time, later: Time)
    requires InOrder(log) && since <= later && FirstSince(log, since) < |log|
    ensures var j, k := FirstSince(log, since), FirstSince(log, later);
            if later <= log[j].at then k == j else j < k
  {
    FirstSinceIsFirst(log, since);
    FirstSinceIsFirst(log, later);
  }

  lemma {:induction false} TailWeighsLess(log: seq<Entry>, j: nat, k: nat)
    requires j < k <= |log|
    ensures |log[k..]| < |log[j..]| && Total(log[k..]) + log[j].count <= Total(log[j..])
  {
    assert log[j..] == [log[j]] + log[j + 1..k] + log[k..];
    TotalOfJoined([log[j]] + log[j + 1..k], log[k..]);
    TotalOfJoined([log[j]], log[j + 1..k]);
    assert Total([log[j]]) == log[j].count;
  }

  /** With rows in the window, nothing leaves it until 24 hours after the oldest
      of them, and right after that the oldest has left. */
  lemma {:induction false} OldestLeavesFirst(log: seq<Entry>, now: Time, later: Time)
    requires InOrder(log) && now <= later && FindSince(log, now - DAY_MS) != []
    ensures var recent := FindSince(log, now - DAY_MS);
            && (later <= recent[0].at + DAY_MS ==> FindSince(log, later - DAY_MS) == recent)
            && (later > recent[0].at + DAY_MS ==>
                  |FindSince(log, later - DAY_MS)| < |recent| && Used(log, later) + recent[0].count <= Total(recent))
  {
    var j, k := FirstSince(log, now - DAY_MS), FirstSince(log, later - DAY_MS);
    FindSinceIsTheEnd(log, now - DAY_MS);
    FindSinceIsTheEnd(log, later - DAY_MS);
    WindowMovesForward(log, now - DAY_MS, later - DAY_MS);
    assert log[j..][0] == log[j];
    if j < k {
      TailWeighsLess(log, j, k);
    }
  }

  // ── Exactly what is accepted ──

  lemma {:induction false} UsedIsTheWindow(log: seq<Entry>, now: Time)
    requires AllBy(log, now)
    ensures Used(log, now) == InWindow(log, now - DAY_MS)
  {
    if log != [] {
      var last := log[|log| - 1];
      UsedIsTheWindow(log[..|log| - 1], now);
      var before := FindSince(log[..|log| - 1], now - DAY_MS);
      TotalOfJoined(before, [last]);
      assert before + [] == before && Total([last]) == last.count;
    }
  }

  /** What lies between two instants is counted entry by entry. */
  lemma {:induction false} BetweenOneMore(log: seq<Entry>, entry: Entry, from: Time, to: Time)
    ensures Between([], from, to) == 0
    ensures Between(log + [entry], from, to) ==
              Between(log, from, to) + if from <= entry.at <= to then entry.count else 0
  {
    assert (log + [entry])[..|log|] == log;
  }

  lemma {:induction false} AttemptsStayInTime(log: seq<Entry>, limit: nat, attempts: seq<Attempt>, now: Time)
    requires InTime(log, attempts) && AllBy(log, now) && forall n :: 0 <= n < |attempts| ==> attempts[n].now <= now
    ensures AllBy(After(log, limit, attempts), now)
    decreases |attempts|
  {
    if attempts != [] {
      AttemptsStayInTime(Claim(log, limit, attempts[0].count, attempts[0].now), limit, attempts[1..], now);
    }
  }

  lemma {:induction false} AfterOneMore(log: seq<Entry>, limit: nat, attempts: seq<Attempt>, last: Attempt)
    ensures After(log, limit, attempts + [last]) == Claim(After(log, limit, attempts), limit, last.count, last.now)
    decreases |attempts|
  {
    if attempts == [] {
      assert ([] + [last])[1..] == [];
    } else {
      assert (attempts + [last])[1..] == attempts[1..] + [last];
      AfterOneMore(Claim(log, limit, attempts[0].count, attempts[0].now), limit, attempts[1..], last);
    }
  }

  /** In every history the next attempt is accepted exactly when it and what was claimed in
      the 24 hours that end with it come to no more than the limit, and only it is added. */
  lemma {:induction false} AcceptedExactly(attempts: seq<Attempt>, limit: nat, last: Attempt)
    requires InTime([], attempts + [last])
    ensures var before := After([], limit, attempts);
            After([], limit, attempts + [last]) ==
            if InWindow(before, last.now - DAY_MS) + last.count <= limit then before + [Entry(last.now, last.count)]
            else before
  {
    var all := attempts + [last];
    forall n | 0 <= n < |attempts| ensures attempts[n].now <= last.now {
      assert all[n] == attempts[n] && all[|attempts|] == last;
    }
    forall m, n | 0 <= m < n < |attempts| ensures attempts[m].now <= attempts[n].now {
      assert all[m] == attempts[m] && all[n] == attempts[n];
    }
    AttemptsStayInTime([], limit, attempts, last.now);
    AfterOneMore([], limit, attempts, last);
    UsedIsTheWindow(After([], limit, attempts), last.now);
  }
}
