/** What an event has paid for its pass: whether the payments since the last
    fresh purchase come to the price of the tier it holds. */
module PassPayments {
  import opened Prelude
  import opened PassPlans
  import opened EventPass

  /** The amounts paid for the event since its last fresh purchase, that one
      included, in the order they were paid. */
  function PaidSinceFresh(ledger: seq<Entry>, event: EventId): int {
    if ledger == [] then 0
    else
      var last := ledger[|ledger| - 1];
      var before := ledger[..|ledger| - 1];
      if last.Succeeded? && last.event == event then
        last.amount + if last.isUpgrade then PaidSinceFresh(before, event) else 0
      else PaidSinceFresh(before, event)
  }

  lemma {:induction false} PaidOfMore(ledger: seq<Entry>, entry: Entry, event: EventId)
    ensures PaidSinceFresh(ledger + [entry], event) ==
            if entry.Succeeded? && entry.event == event
            then entry.amount + (if entry.isUpgrade then PaidSinceFresh(ledger, event) else 0)
            else PaidSinceFresh(ledger, event)
  {
    assert (ledger + [entry])[..|ledger|] == ledger;
  }

  function PassPrice(t: Tables, event: EventId): int {
    if event in t.passes then Price(t.passes[event]) else 0
  }

  ghost predicate PaidInFull(t: Tables, event: EventId) {
    PaidSinceFresh(t.ledger, event) == PassPrice(t, event)
  }

  /** An upgrade was priced from the tier the pass still has; a fresh purchase, whole. */
  predicate PricedFromHere(t: Tables, p: Purchase) {
    p.amount == Price(p.tier) - if p.isUpgrade then PassPrice(t, p.event) else 0
  }

  /** Every fresh purchase is for its tier's whole price. */
  ghost predicate FreshPricedWhole(t: Tables) {
    forall ref: Ref :: ref < |t.purchases| && !t.purchases[ref].isUpgrade ==>
        t.purchases[ref].amount == Price(t.purchases[ref].tier)
  }

  lemma {:induction false} FreshIsWhole(t: Tables, steps: seq<Step>)
    requires FreshPricedWhole(t)
    ensures FreshPricedWhole(Run(t, steps))
  {
    if steps != [] {
      FreshIsWhole(t, steps[..|steps| - 1]);
    }
  }

  /** Confirming a payment leaves the event paid in full for its new tier
      exactly when it is a fresh purchase, or an upgrade from the tier the pass
      still has at that moment. */
  lemma {:induction false} ConfirmKeepsPaidExactly(t: Tables, ref: Ref)
    requires IsPending(t, ref) && FreshPricedWhole(t) && PaidInFull(t, t.purchases[ref].event)
    ensures PaidInFull(Confirmed(t, ref), t.purchases[ref].event) <==> PricedFromHere(t, t.purchases[ref])
  {
    PaidOfMore(t.ledger, Receipt(t.purchases[ref], ref), t.purchases[ref].event);
  }

  // ── Runs in which purchases don't overlap ──

  ghost predicate NonePending(t: Tables, event: EventId) {
    forall ref: Ref :: IsPending(t, ref) ==> t.purchases[ref].event != event
  }

  /** A purchase for the event starts only while none is pending, from the pass as it is. */
  ghost predicate StartsAlone(t: Tables, step: Step, event: EventId) {
    step.StartStep? && step.event == event ==> NonePending(t, event) && step.seen == Pass(t, event)
  }

  ghost predicate StartAlone(t: Tables, steps: seq<Step>, event: EventId) {
    steps != [] ==>
      StartAlone(t, steps[..|steps| - 1], event) && StartsAlone(Run(t, steps[..|steps| - 1]), steps[|steps| - 1], event)
  }

  /** At most one purchase is pending, priced from the pass as it stands. */
  ghost predicate PendingIsPriced(t: Tables, event: EventId) {
    && (forall ref: Ref :: IsPending(t, ref) && t.purchases[ref].event == event ==> PricedFromHere(t, t.purchases[ref]))
    && (forall a: Ref, b: Ref ::
        IsPending(t, a) && IsPending(t, b) && t.purchases[a].event == event && t.purchases[b].event == event ==> a == b)
  }

  lemma {:induction false} StepKeepsPaid(t: Tables, step: Step, event: EventId)
    requires StartsAlone(t, step, event) && PendingIsPriced(t, event) && PaidInFull(t, event)
    ensures PaidInFull(Next(t, step), event)
  {
    if Next(t, step).ledger != t.ledger {
      PaidOfMore(t.ledger, Next(t, step).ledger[|t.ledger|], event);
    }
  }

  lemma {:induction false} StepKeepsPending(t: Tables, step: Step, event: EventId)
    requires StartsAlone(t, step, event) && PendingIsPriced(t, event)
    ensures PendingIsPriced(Next(t, step), event)
  {
    var after := Next(t, step);
    forall ref: Ref | IsPending(after, ref) && after.purchases[ref].event == event
      ensures PricedFromHere(after, after.purchases[ref]) && (ref < |t.purchases| ==> IsPending(t, ref))
    {
      if ref < |t.purchases| {
        assert after.purchases[ref] == t.purchases[ref] && IsPending(t, ref);
        if step.ConfirmStep? && IsPending(t, step.ref) {
          assert step.ref != ref;
        }
      }
    }
  }

  /** When no purchase starts while another is pending, the event has at every
      moment paid exactly the price of the tier it holds since its last fresh
      purchase, through any upgrades, expiries, failures and repeats. */
  lemma {:induction false} PaidInFullWithoutOverlap(steps: seq<Step>, event: EventId)
    requires StartAlone(EMPTY, steps, event)
    ensures PaidInFull(Run(EMPTY, steps), event) && PendingIsPriced(Run(EMPTY, steps), event)
  {
    if steps != [] {
      var earlier := steps[..|steps| - 1];
      PaidInFullWithoutOverlap(earlier, event);
      StepKeepsPaid(Run(EMPTY, earlier), steps[|steps| - 1], event);
      StepKeepsPending(Run(EMPTY, earlier), steps[|steps| - 1], event);
    }
  }

  // ── Two upgrades at once ──

  function TwoUpgrades(event: EventId): seq<Step> {
    [StartStep(event, SMALL, None, false), ConfirmStep(0),
     StartStep(event, LARGE, Some(SMALL), true), StartStep(event, STANDARD, Some(SMALL), true),
     ConfirmStep(1), ConfirmStep(2)]
  }

  lemma {:induction false} RunNext(t: Tables, steps: seq<Step>, n: nat)
    requires n < |steps|
    ensures Run(t, steps[..n + 1]) == Next(Run(t, steps[..n]), steps[n])
  {
    assert steps[..n + 1][..n] == steps[..n];
  }

  function SmallBought(event: EventId): Purchase {
    Purchase(event, SMALL, false, 39_900, PAID)
  }

  function ToLarge(event: EventId): Purchase {
    Purchase(event, LARGE, true, 90_000, PENDING)
  }

  function ToStandard(event: EventId): Purchase {
    Purchase(event, STANDARD, true, 40_000, PENDING)
  }

  lemma {:induction false} TwoUpgradesStarted(event: EventId)
    ensures Run(EMPTY, TwoUpgrades(event)[..4]) ==
            Tables([SmallBought(event), ToLarge(event), ToStandard(event)], map[event := SMALL],
                   [Receipt(SmallBought(event), 0)])
  {
    var steps := TwoUpgrades(event);
    RunNext(EMPTY, steps, 0);
    RunNext(EMPTY, steps, 1);
    assert Run(EMPTY, steps[..2]) ==
        Tables([SmallBought(event)], map[event := SMALL], [Receipt(SmallBought(event), 0)]);
    RunNext(EMPTY, steps, 2);
    RunNext(EMPTY, steps, 3);
  }

  lemma {:induction false} TwoUpgradesPaid(event: EventId)
    ensures var after := Run(EMPTY, TwoUpgrades(event));
            && Pass(after, event) == Some(STANDARD)
            && after.ledger == [Receipt(SmallBought(event), 0)] + [Receipt(ToLarge(event), 1)]
                + [Receipt(ToStandard(event), 2)]
  {
    var steps := TwoUpgrades(event);
    TwoUpgradesStarted(event);
    RunNext(EMPTY, steps, 4);
    RunNext(EMPTY, steps, 5);
    assert steps[..6] == steps;
  }

  /** Two upgrades started from one SMALL pass and both paid: R1,699 paid in
      all, and the later payment takes the pass from LARGE back to STANDARD. */
  lemma {:induction false} OverlappingUpgradesOverpay(event: EventId)
    ensures var after := Run(EMPTY, TwoUpgrades(event));
            && Pass(after, event) == Some(STANDARD)
            && PaidSinceFresh(after.ledger, event) == 169_900
            && !PaidInFull(after, event)
  {
    TwoUpgradesPaid(event);
    var first, second := [Receipt(SmallBought(event), 0)], [Receipt(ToLarge(event), 1)];
    assert [] + first == first;
    PaidOfMore([], first[0], event);
    PaidOfMore(first, second[0], event);
    PaidOfMore(first + second, Receipt(ToStandard(event), 2), event);
  }
}
