/** Buying an Event Pass: purchases, the pass they grant and the ledger, written
    by checkouts, webhooks and reconciliation in any order. */
module EventPass {
  import opened Prelude
  import opened PassPlans

  type EventId = string

  /** A purchase's payment reference, never used twice: its place in the table. */
  type Ref = nat

  datatype Status = PENDING | PAID | FAILED

  datatype Purchase = Purchase(event: EventId, tier: PassTier, isUpgrade: bool, amount: int, status: Status)

  datatype Entry =
    | Initiated(ref: Ref)
    | Succeeded(ref: Ref, event: EventId, tier: PassTier, isUpgrade: bool, amount: int)
    | Failed(ref: Ref)

  datatype Tables = Tables(purchases: seq<Purchase>, passes: map<EventId, PassTier>, ledger: seq<Entry>)

  const EMPTY: Tables := Tables([], map[], [])

  // ── Deciding a purchase ──

  datatype Offer = Offer(isUpgrade: bool, amount: int)

  /** From the pass as the request read it: refused, a fresh purchase, or an upgrade. */
  function Decide(tier: PassTier, pass: Option<PassTier>, active: bool): Option<Offer> {
    if active && pass.Some? then
      if Rank(tier) <= Rank(pass.value) then None else Some(Offer(true, Price(tier) - Price(pass.value)))
    else Some(Offer(false, Price(tier)))
  }

  /** An active pass can only be raised, for exactly the difference in price,
      which is more than nothing; anything else is bought whole. */
  lemma {:induction false} OnlyRaised(tier: PassTier, pass: Option<PassTier>, active: bool)
    ensures Decide(tier, pass, active).None? <==> active && pass.Some? && Rank(tier) <= Rank(pass.value)
    ensures var offer := Decide(tier, pass, active);
            offer.Some? ==>
              && offer.value.amount > 0
              && (offer.value.isUpgrade <==> active && pass.Some?)
              && offer.value.amount == Price(tier) - if offer.value.isUpgrade then Price(pass.value) else 0
  {
  }

  // ── Atomic writes ──

  datatype Step =
    | StartStep(event: EventId, tier: PassTier, seen: Option<PassTier>, active: bool)
    | RecordInitiatedStep(ref: Ref)
    | MarkFailedStep(ref: Ref)
    | RecordFailedStep(ref: Ref)
    | ConfirmStep(ref: Ref)
    | FailStep(ref: Ref)

  function SetStatus(purchases: seq<Purchase>, ref: Ref, status: Status): seq<Purchase>
    requires ref < |purchases|
  {
    purchases[ref := purchases[ref].(status := status)]
  }

  predicate IsPending(t: Tables, ref: Ref) {
    ref < |t.purchases| && t.purchases[ref].status == PENDING
  }

  function Receipt(p: Purchase, ref: Ref): Entry {
    Succeeded(ref, p.event, p.tier, p.isUpgrade, p.amount)
  }

  /** The one activation: the purchase is paid, the event's pass made or raised in place, and the ledger told. */
  function Confirmed(t: Tables, ref: Ref): Tables {
    if !IsPending(t, ref) then t
    else
      var p := t.purchases[ref];
      Tables(SetStatus(t.purchases, ref, PAID), t.passes[p.event := p.tier], t.ledger + [Receipt(p, ref)])
  }

  function Next(t: Tables, step: Step): Tables {
    match step
    case StartStep(event, tier, seen, active) =>
      var offer := Decide(tier, seen, active);
      if offer.None? then t
      else t.(purchases := t.purchases + [Purchase(event, tier, offer.value.isUpgrade, offer.value.amount, PENDING)])
    case RecordInitiatedStep(ref) => t.(ledger := t.ledger + [Initiated(ref)])
    case MarkFailedStep(ref) => if IsPending(t, ref) then t.(purchases := SetStatus(t.purchases, ref, FAILED)) else t
    case RecordFailedStep(ref) => t.(ledger := t.ledger + [Failed(ref)])
    case ConfirmStep(ref) => Confirmed(t, ref)
    case FailStep(ref) =>
      if IsPending(t, ref) then t.(purchases := SetStatus(t.purchases, ref, FAILED), ledger := t.ledger + [Failed(ref)])
      else t
  }

  function Run(t: Tables, steps: seq<Step>): Tables {
    if steps == [] then t else Next(Run(t, steps[..|steps| - 1]), steps[|steps| - 1])
  }

  // ── The service, over the tables ──

  datatype Outcome = NowConfirmed | NowFailed | AlreadyHandled | NotFound

  class EventPassTables {
    var purchases: seq<Purchase>
    var passes: map<EventId, PassTier>
    var ledger: seq<Entry>

    constructor ()
      ensures Now() == EMPTY
    {
      purchases, passes, ledger := [], map[], [];
    }

    function Now(): Tables
      reads this
    {
      Tables(purchases, passes, ledger)
    }

    method ConfirmPurchase(ref: Ref)
      requires ref < |purchases|
      modifies this`purchases, this`passes
      ensures purchases == old(purchases)[ref := old(purchases)[ref].(status := PAID)]
      ensures passes == old(passes)[old(purchases)[ref].event := old(purchases)[ref].tier]
    {
      var p := purchases[ref];
      purchases := SetStatus(purchases, ref, PAID);
      passes := passes[p.event := p.tier];
    }

    method ConfirmPassPurchaseWithinTransaction(ref: Ref) returns (outcome: Outcome)
      modifies this
      ensures Now() == Next(old(Now()), ConfirmStep(ref))
      ensures outcome == (if ref >= |old(purchases)| then NotFound
                          else if old(purchases)[ref].status == PENDING then NowConfirmed
                          else AlreadyHandled)
      ensures outcome != NowConfirmed ==> Now() == old(Now())
      ensures outcome == NowConfirmed ==>
                var p := old(purchases)[ref];
                && purchases == old(purchases)[ref := p.(status := PAID)]
                && passes == old(passes)[p.event := p.tier]
                && ledger == old(ledger) + [Succeeded(ref, p.event, p.tier, p.isUpgrade, p.amount)]
    {
      if ref >= |purchases| {
        return NotFound;
      }
      var p := purchases[ref];
      if p.status != PENDING {
        return AlreadyHandled;
      }
      ConfirmPurchase(ref);
      ledger := ledger + [Receipt(p, ref)];
      return NowConfirmed;
    }

    method FailPassPurchaseWithinTransaction(ref: Ref) returns (outcome: Outcome)
      modifies this
      ensures Now() == Next(old(Now()), FailStep(ref))
      ensures outcome == (if ref >= |old(purchases)| then NotFound
                          else if old(purchases)[ref].status == PENDING then NowFailed
                          else AlreadyHandled)
      ensures passes == old(passes) && (outcome != NowFailed ==> Now() == old(Now()))
      ensures outcome == NowFailed ==>
                && purchases == old(purchases)[ref := old(purchases)[ref].(status := FAILED)]
                && ledger == old(ledger) + [Failed(ref)]
    {
      if ref >= |purchases| {
        return NotFound;
      }
      if purchases[ref].status != PENDING {
        return AlreadyHandled;
      }
      purchases := SetStatus(purchases, ref, FAILED);
      ledger := ledger + [Failed(ref)];
      return NowFailed;
    }

    method MarkPurchaseFailed(ref: Ref)
      modifies this`purchases
      ensures Now() == Next(old(Now()), MarkFailedStep(ref))
      ensures purchases == if ref < |old(purchases)| && old(purchases)[ref].status == PENDING
                           then old(purchases)[ref := old(purchases)[ref].(status := FAILED)] else old(purchases)
    {
      if ref < |purchases| && purchases[ref].status == PENDING {
        purchases := SetStatus(purchases, ref, FAILED);
      }
    }

    /** A checkout that nothing else runs beside: `opened` says whether the payment provider opened it. */
    method PurchasePass(event: EventId, tier: PassTier, active: bool, isOpened: bool) returns (started: bool)
      modifies this
      ensures started == (isOpened && Decide(tier, Pass(old(Now()), event), active).Some?)
      ensures Now() == Run(old(Now()), Checkout(old(Now()), event, tier, active, isOpened))
      ensures passes == old(passes)
      ensures var held := active && event in old(passes);
              var amount := Price(tier) - if held then Price(old(passes)[event]) else 0;
              if held && Price(tier) <= Price(old(passes)[event]) then Now() == old(Now())
              else
                && purchases == old(purchases) +
                     [Purchase(event, tier, held, amount, if isOpened then PENDING else FAILED)]
                && ledger == old(ledger) +
                             [if isOpened then Initiated(|old(purchases)|) else Failed(|old(purchases)|)]
    {
      var offer := Decide(tier, if event in passes then Some(passes[event]) else None, active);
      if offer.None? {
        return false;
      }
      ghost var before := Now();
      var ref := |purchases|;
      purchases := purchases + [Purchase(event, tier, offer.value.isUpgrade, offer.value.amount, PENDING)];
      if isOpened {
        ledger := ledger + [Initiated(ref)];
        RunOfTwo(before, StartStep(event, tier, Pass(before, event), active), RecordInitiatedStep(ref));
        return true;
      }
      MarkPurchaseFailed(ref);
      ledger := ledger + [Failed(ref)];
      RunOfTwo(before, StartStep(event, tier, Pass(before, event), active), MarkFailedStep(ref));
      RunOfMore(before, [StartStep(event, tier, Pass(before, event), active), MarkFailedStep(ref)],
                RecordFailedStep(ref));
      return false;
    }

    /** From the purchase's status as it was read, with whatever happened while the provider was asked in between. */
    method ReconcilePassPurchase(ref: Ref, status: Status, providerSaysPaid: bool, ghost read: Tables)
        returns (answer: Status)
      requires ref < |read.purchases| && status == read.purchases[ref].status
      modifies this
      ensures (Now(), answer) == Reconciled(read, old(Now()), ref, providerSaysPaid)
      ensures answer == if status == PENDING && providerSaysPaid then PAID else status
      ensures (status == PENDING && providerSaysPaid ==>
                 ref >= |old(purchases)| || old(purchases)[ref].status != PENDING) ==>
                Now() == old(Now())
    {
      if status != PENDING {
        return status;
      }
      if providerSaysPaid {
        var _ := ConfirmPassPurchaseWithinTransaction(ref);
        return PAID;
      }
      return PENDING;
    }
  }

  function Pass(t: Tables, event: EventId): Option<PassTier> {
    if event in t.passes then Some(t.passes[event]) else None
  }

  /** The writes of one checkout, in order. */
  function Checkout(t: Tables, event: EventId, tier: PassTier, active: bool, isOpened: bool): seq<Step> {
    if Decide(tier, Pass(t, event), active).None? then []
    else if isOpened then [StartStep(event, tier, Pass(t, event), active), RecordInitiatedStep(|t.purchases|)]
    else
      [StartStep(event, tier, Pass(t, event), active), MarkFailedStep(|t.purchases|)]
      + [RecordFailedStep(|t.purchases|)]
  }

  lemma {:induction false} RunOfMore(t: Tables, steps: seq<Step>, step: Step)
    ensures Run(t, steps + [step]) == Next(Run(t, steps), step)
  {
    assert (steps + [step])[..|steps|] == steps;
  }

  lemma {:induction false} RunOfTwo(t: Tables, first: Step, second: Step)
    ensures Run(t, [first, second]) == Next(Next(t, first), second)
  {
    RunOfMore(t, [], first);
    RunOfMore(t, [first], second);
    assert [] + [first] == [first] && [first] + [second] == [first, second];
  }

  // ── Settled purchases stay settled ──

  lemma {:induction false} StepSettles(t: Tables, step: Step, ref: Ref)
    requires ref < |t.purchases|
    ensures var after := Next(t, step).purchases;
            && ref < |after|
            && after[ref].(status := PENDING) == t.purchases[ref].(status := PENDING)
            && (t.purchases[ref].status != PENDING ==> after[ref] == t.purchases[ref])
  {
  }

  /** Whatever happens, in whatever order and however often, a purchase keeps
      its event, tier and price; once paid or failed it stays so. */
  lemma {:induction false} PaidAndFailedAreFinal(t: Tables, steps: seq<Step>, ref: Ref)
    requires ref < |t.purchases|
    ensures var after := Run(t, steps).purchases;
            && ref < |after|
            && after[ref].(status := PENDING) == t.purchases[ref].(status := PENDING)
            && (t.purchases[ref].status != PENDING ==> after[ref] == t.purchases[ref])
  {
    if steps != [] {
      PaidAndFailedAreFinal(t, steps[..|steps| - 1], ref);
      StepSettles(Run(t, steps[..|steps| - 1]), steps[|steps| - 1], ref);
    }
  }

  // ── One receipt per paid purchase, and a pass exactly for one ──

  function Receipts(ledger: seq<Entry>, ref: Ref): nat {
    if ledger == [] then 0
    else Receipts(ledger[..|ledger| - 1], ref) + if ledger[|ledger| - 1].Succeeded? && ledger[|ledger| - 1].ref == ref
                                                 then 1 else 0
  }

  lemma {:induction false} ReceiptsOfMore(ledger: seq<Entry>, entry: Entry, ref: Ref)
    ensures Receipts(ledger + [entry], ref) == Receipts(ledger, ref) + if entry.Succeeded? && entry.ref == ref then 1
                                                                       else 0
  {
    assert (ledger + [entry])[..|ledger|] == ledger;
  }

  predicate IsPaid(t: Tables, ref: Ref) {
    ref < |t.purchases| && t.purchases[ref].status == PAID
  }

  ghost predicate OneReceiptEach(t: Tables) {
    forall ref: Ref :: Receipts(t.ledger, ref) == if IsPaid(t, ref) then 1 else 0
  }

  ghost predicate ReceiptsAreTrue(t: Tables) {
    forall l :: 0 <= l < |t.ledger| && t.ledger[l].Succeeded? ==>
                  IsPaid(t, t.ledger[l].ref) && t.ledger[l] == Receipt(t.purchases[t.ledger[l].ref], t.ledger[l].ref)
  }

  ghost predicate HasPaid(t: Tables, event: EventId) {
    exists ref: Ref :: IsPaid(t, ref) && t.purchases[ref].event == event
  }

  ghost predicate PassForPaid(t: Tables) {
    forall event :: event in t.passes <==> HasPaid(t, event)
  }

  /** The tier most recently paid for, by the ledger. */
  function LastPaidTier(ledger: seq<Entry>, event: EventId): Option<PassTier> {
    if ledger == [] then None
    else
      var last := ledger[|ledger| - 1];
      if last.Succeeded? && last.event == event then Some(last.tier) else LastPaidTier(ledger[..|ledger| - 1], event)
  }

  ghost predicate PassIsLastPaid(t: Tables) {
    forall event :: Pass(t, event) == LastPaidTier(t.ledger, event)
  }

  lemma {:induction false} ConfirmKeepsReceipts(t: Tables, ref: Ref)
    requires OneReceiptEach(t) && ReceiptsAreTrue(t)
    ensures OneReceiptEach(Confirmed(t, ref)) && ReceiptsAreTrue(Confirmed(t, ref))
  {
    if IsPending(t, ref) {
      var after := Confirmed(t, ref);
      forall other: Ref ensures Receipts(after.ledger, other) == if IsPaid(after, other) then 1 else 0 {
        ReceiptsOfMore(t.ledger, Receipt(t.purchases[ref], ref), other);
      }
      forall l | 0 <= l < |after.ledger| && after.ledger[l].Succeeded?
        ensures IsPaid(after, after.ledger[l].ref) &&
                  after.ledger[l] == Receipt(after.purchases[after.ledger[l].ref], after.ledger[l].ref)
      {
        if l < |t.ledger| {
          assert after.ledger[l] == t.ledger[l];
        }
      }
    }
  }

  lemma {:induction false} StepKeepsReceipts(t: Tables, step: Step)
    requires OneReceiptEach(t) && ReceiptsAreTrue(t)
    ensures OneReceiptEach(Next(t, step)) && ReceiptsAreTrue(Next(t, step))
  {
    if step.ConfirmStep? {
      ConfirmKeepsReceipts(t, step.ref);
    } else {
      var after := Next(t, step);
      forall other: Ref ensures IsPaid(after, other) == IsPaid(t, other) {
      }
      forall other: Ref ensures Receipts(after.ledger, other) == Receipts(t.ledger, other) {
        if step.RecordInitiatedStep? || step.RecordFailedStep? || step.FailStep? {
          ReceiptsOfMore(t.ledger, if step.RecordInitiatedStep? then Initiated(step.ref) else Failed(step.ref), other);
        }
      }
    }
  }

  lemma {:induction false} StepKeepsPasses(t: Tables, step: Step)
    requires PassForPaid(t)
    ensures PassForPaid(Next(t, step))
  {
    var after := Next(t, step);
    forall event ensures event in after.passes <==> HasPaid(after, event) {
      if step.ConfirmStep? && IsPending(t, step.ref) && t.purchases[step.ref].event == event {
        assert IsPaid(after, step.ref) && after.purchases[step.ref].event == event;
      } else {
        assert event in after.passes <==> event in t.passes;
        if HasPaid(t, event) {
          var ref: Ref :| IsPaid(t, ref) && t.purchases[ref].event == event;
          assert IsPaid(after, ref) && after.purchases[ref].event == event;
        }
        if HasPaid(after, event) {
          var ref: Ref :| IsPaid(after, ref) && after.purchases[ref].event == event;
          assert IsPaid(t, ref) && t.purchases[ref].event == event;
        }
      }
    }
  }

  lemma {:induction false} LastPaidOfMore(ledger: seq<Entry>, entry: Entry, event: EventId)
    ensures LastPaidTier(ledger + [entry], event) ==
            if entry.Succeeded? && entry.event == event then Some(entry.tier) else LastPaidTier(ledger, event)
  {
    assert (ledger + [entry])[..|ledger|] == ledger;
  }

  lemma {:induction false} StepKeepsLastPaid(t: Tables, step: Step)
    requires PassIsLastPaid(t)
    ensures PassIsLastPaid(Next(t, step))
  {
    var after := Next(t, step);
    if after.ledger != t.ledger {
      var entry := after.ledger[|t.ledger|];
      forall event ensures Pass(after, event) == LastPaidTier(after.ledger, event) {
        LastPaidOfMore(t.ledger, entry, event);
      }
    }
  }

  /** However often webhooks and reconciliation repeat, and in whatever order:
      a purchase has a receipt in the ledger exactly when it is paid, one and for
      its own amount; an event has a pass exactly when it has a paid purchase,
      at the tier paid for last. */
  lemma {:induction false} PaidOnceAndGranted(steps: seq<Step>)
    ensures OneReceiptEach(Run(EMPTY, steps)) && ReceiptsAreTrue(Run(EMPTY, steps))
    ensures PassForPaid(Run(EMPTY, steps)) && PassIsLastPaid(Run(EMPTY, steps))
  {
    if steps != [] {
      var before := Run(EMPTY, steps[..|steps| - 1]);
      PaidOnceAndGranted(steps[..|steps| - 1]);
      StepKeepsReceipts(before, steps[|steps| - 1]);
      StepKeepsPasses(before, steps[|steps| - 1]);
      StepKeepsLastPaid(before, steps[|steps| - 1]);
    }
  }

  // ── Reconciliation ──

  /** The purchase is read at one moment; the provider is asked; and if it says
      so the purchase is confirmed at a later one. */
  function Reconciled(read: Tables, later: Tables, ref: Ref, providerSaysPaid: bool): (Tables, Status)
    requires ref < |read.purchases|
  {
    var status := read.purchases[ref].status;
    if status != PENDING then (later, status)
    else if providerSaysPaid then (Confirmed(later, ref), PAID)
    else (later, PENDING)
  }

  /** The answer is the purchase's status exactly unless the purchase was
      settled while the provider was asked: failed, and the answer is paid all
      the same; or settled either way, and the answer is still pending. */
  lemma {:induction false} ReconcileAnswersExactly(read: Tables, meanwhile: seq<Step>, ref: Ref, providerSaysPaid: bool)
    requires ref < |read.purchases|
    ensures var later := Run(read, meanwhile);
            var (after, answer) := Reconciled(read, later, ref, providerSaysPaid);
            && ref < |later.purchases| && ref < |after.purchases|
            && (after.purchases[ref].status == answer <==>
                read.purchases[ref].status != PENDING
                || later.purchases[ref].status == PENDING
                || (providerSaysPaid && later.purchases[ref].status == PAID))
  {
    PaidAndFailedAreFinal(read, meanwhile, ref);
  }

  /** A SMALL pass bought, read as pending, and failed while the provider is asked: the answer is paid. */
  lemma {:induction false} FailedIsAnsweredPaid(event: EventId)
    ensures var read := Next(EMPTY, StartStep(event, SMALL, None, false));
            var (after, answer) := Reconciled(read, Run(read, [FailStep(0)]), 0, true);
            && IsPending(read, 0) && answer == PAID && |after.purchases| == 1 && after.purchases[0].status == FAILED
  {
    var read := Next(EMPTY, StartStep(event, SMALL, None, false));
    RunOfMore(read, [], FailStep(0));
    assert [] + [FailStep(0)] == [FailStep(0)];
  }
}
