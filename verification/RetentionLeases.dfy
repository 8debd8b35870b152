/** Who holds a purge: over every run of grants, failures and releases, exactly
    when an attempt is let at it. */
module RetentionLeases {
  import opened Prelude
  import opened RetentionTables
  import opened RetentionProtocol

  // ── The history of one purge's lease ──

  /** An attempt on the purge begins with this step. */
  ghost predicate IsGrant(db: Db, step: Step, key: PurgeKey) {
    step.LeasePurge? && step.key == key && |Next(db, step).attempts| > |db.attempts|
  }

  /** An attempt on the purge reports with this step: it finishes, or aborts on a database failure. */
  ghost predicate IsReport(db: Db, step: Step, key: PurgeKey) {
    && (step.FinishRun? || step.AbortRun?) && step.attempt < |db.attempts| && db.attempts[step.attempt].key == key
    && Next(db, step).attempts != db.attempts
  }

  /** When the last attempt was let at the purge, if none has reported since. */
  ghost function HeldSince(start: Db, steps: seq<Step>, key: PurgeKey): Option<Time>
    decreases |steps|
  {
    if steps == [] then None
    else
      var before, last := steps[..|steps| - 1], steps[|steps| - 1];
      if IsGrant(Exec(start, before), last, key) then Some(last.now)
      else if IsReport(Exec(start, before), last, key) then None
      else HeldSince(start, before, key)
  }

  /** The lease a purge's row shows. */
  function LeaseOf(t: Tables, key: PurgeKey): Option<Time> {
    if key in t.purges then t.purges[key].leaseUntil else None
  }

  ghost predicate AttemptsHavePurges(db: Db) {
    forall k :: 0 <= k < |db.attempts| ==> db.attempts[k].key in db.rows.purges
  }

  lemma {:induction false} StepKeepsPurges(db: Db, step: Step)
    requires AttemptsHavePurges(db)
    ensures AttemptsHavePurges(Next(db, step))
  {
  }

  /** One step moves the lease exactly by granting it or by a report. */
  lemma {:induction false} StepMovesLease(db: Db, step: Step, key: PurgeKey)
    requires AttemptsHavePurges(db)
    ensures LeaseOf(Next(db, step).rows, key) ==
            if IsGrant(db, step, key) then Some(step.now + MEDIA_PURGE_LEASE_MS)
            else if IsReport(db, step, key) then None
            else LeaseOf(db.rows, key)
  {
  }

  lemma {:induction false} LeaseIsHeldSince(start: Db, steps: seq<Step>, key: PurgeKey)
    requires Init(start)
    ensures AttemptsHavePurges(Exec(start, steps))
    ensures var held := HeldSince(start, steps, key);
            LeaseOf(Exec(start, steps).rows, key) ==
            if held.None? then None else Some(held.value + MEDIA_PURGE_LEASE_MS)
    decreases |steps|
  {
    if steps != [] {
      var before, last := steps[..|steps| - 1], steps[|steps| - 1];
      assert steps == before + [last];
      ExecAppend(start, before, last);
      LeaseIsHeldSince(start, before, key);
      StepKeepsPurges(Exec(start, before), last);
      StepMovesLease(Exec(start, before), last, key);
    }
  }

  // ── Exactly when a purge is let to an attempt ──

  /** In every reachable state an attempt is let at a purge exactly when the purge
      is unfinished and no attempt holds it: every one let at it since the last
      report was so more than ten minutes ago. */
  lemma {:induction false} GrantedExactly(start: Db, steps: seq<Step>, key: PurgeKey, now: Time)
    requires Init(start) && now <= Exec(start, steps).clock && key in Exec(start, steps).rows.purges
    ensures IsGrant(Exec(start, steps), LeasePurge(key, now), key) <==>
              && Exec(start, steps).rows.purges[key].completedAt.None?
              && (HeldSince(start, steps, key).None?
                  || HeldSince(start, steps, key).value + 10 * 60 * 1000 < now)
  {
    LeaseIsHeldSince(start, steps, key);
    var db := Exec(start, steps);
    assert Next(db, LeasePurge(key, now)) == DoLease(db, key, now);
  }

  /** No attempt on the purge reports during these steps. */
  ghost predicate NoReport(db: Db, steps: seq<Step>, key: PurgeKey)
    decreases |steps|
  {
    steps == [] || (!IsReport(db, steps[0], key) && NoReport(Next(db, steps[0]), steps[1..], key))
  }

  lemma {:induction false} ExecTogether(db: Db, first: seq<Step>, second: seq<Step>)
    ensures Exec(db, first + second) == Exec(Exec(db, first), second)
    decreases |second|
  {
    if second == [] {
      assert first + second == first;
    } else {
      assert first + second == first + [second[0]] + second[1..];
      ExecAppend(db, first, second[0]);
      ExecTogether(db, first + [second[0]], second[1..]);
    }
  }

  /** While none reports, the purge stays held from a time no earlier. */
  lemma {:induction false} StaysHeld(start: Db, first: seq<Step>, rest: seq<Step>, key: PurgeKey)
    requires Init(start) && HeldSince(start, first, key).Some? && NoReport(Exec(start, first), rest, key)
    ensures HeldSince(start, first + rest, key).Some?
    ensures HeldSince(start, first + rest, key).value >= HeldSince(start, first, key).value
    decreases |rest|
  {
    if rest == [] {
      assert first + rest == first;
    } else {
      var step := rest[0];
      var more := first + [step];
      assert more[..|more| - 1] == first;
      assert first + rest == more + rest[1..];
      ExecAppend(start, first, step);
      if IsGrant(Exec(start, first), step, key) {
        GrantNeedsPurge(Exec(start, first), step, key);
        GrantedExactly(start, first, key, step.now);
      }
      StaysHeld(start, more, rest[1..], key);
    }
  }

  lemma {:induction false} GrantNeedsPurge(db: Db, step: Step, key: PurgeKey)
    requires IsGrant(db, step, key)
    ensures key in db.rows.purges && step.now <= db.clock
  {
  }

  /** Two attempts are let at one purge only more than ten minutes apart, unless one on it reported in between. */
  lemma {:induction false} LeasesAreApart(
    start: Db, first: seq<Step>, now: Time, middle: seq<Step>, later: Time, key: PurgeKey)
    requires Init(start) && IsGrant(Exec(start, first), LeasePurge(key, now), key)
    requires NoReport(Exec(start, first + [LeasePurge(key, now)]), middle, key)
    requires IsGrant(Exec(start, first + [LeasePurge(key, now)] + middle), LeasePurge(key, later), key)
    ensures later > now + 10 * 60 * 1000
  {
    var leased := first + [LeasePurge(key, now)];
    assert leased[..|leased| - 1] == first;
    StaysHeld(start, leased, middle, key);
    GrantNeedsPurge(Exec(start, leased + middle), LeasePurge(key, later), key);
    GrantedExactly(start, leased + middle, key, later);
  }
}
