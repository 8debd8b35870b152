/** Event Pass prices, ranks and what a pass entitles its event to. */
module PassPlans {
  import opened Prelude

  datatype PassTier = SMALL | STANDARD | LARGE

  function Price(tier: PassTier): int {
    match tier
    case SMALL => 39_900
    case STANDARD => 79_900
    case LARGE => 129_900
  }

  function Rank(tier: PassTier): int {
    match tier
    case SMALL => 0
    case STANDARD => 1
    case LARGE => 2
  }

  datatype SubscriptionTier = SPARK | CELEBRATE | ELEVATE

  function TierRank(tier: SubscriptionTier): int {
    match tier
    case SPARK => 0
    case CELEBRATE => 1
    case ELEVATE => 2
  }

  function Granted(tier: PassTier): SubscriptionTier {
    match tier
    case SMALL => CELEBRATE
    case STANDARD => CELEBRATE
    case LARGE => ELEVATE
  }

  // ── Expiry ──

  datatype Day = Day(date: Time, endTime: Option<Time>)

  const PASS_GRACE_MS: int := 30 * DAY_MS

  /** 23:59:59.999 of the day's UTC date. */
  function DayEnd(day: Day): Time {
    if day.endTime.Some? then day.endTime.value else day.date - day.date % DAY_MS + DAY_MS - 1
  }

  /** The first of the days with the latest date. */
  predicate IsLastDay(days: seq<Day>, last: int) {
    && 0 <= last < |days|
    && (forall d :: 0 <= d < |days| ==> days[d].date <= days[last].date)
    && (forall d :: 0 <= d < last ==> days[d].date < days[last].date)
  }

  /** Where the last day is: a later one takes over only when its date is later. */
  function LastDay(days: seq<Day>): (last: nat)
    requires days != []
    ensures IsLastDay(days, last)
  {
    if |days| == 1 then 0
    else
      var before := days[..|days| - 1];
      var last := LastDay(before);
      assert forall d :: 0 <= d < |before| ==> before[d] == days[d];
      if days[|days| - 1].date > days[last].date then |days| - 1 else last
  }

  function ResolveEventPassExpiry(days: seq<Day>): Option<Time> {
    if days == [] then None else Some(DayEnd(days[LastDay(days)]) + PASS_GRACE_MS)
  }

  predicate IsActive(pass: Option<PassTier>, days: seq<Day>, now: Time) {
    var expiry := ResolveEventPassExpiry(days);
    pass.Some? && (expiry.None? || now < expiry.value)
  }

  lemma {:induction false} DayEndsOnce(day: Day)
    ensures forall end :: EndsAt(day, end) <==> end == DayEnd(day)
  {
    assert day.date == day.date / DAY_MS * DAY_MS + day.date % DAY_MS;
  }

  lemma {:induction false} OneLastDay(days: seq<Day>, a: int, b: int)
    requires IsLastDay(days, a) && IsLastDay(days, b)
    ensures a == b
  {
    assert !(days[a].date < days[b].date) && !(days[b].date < days[a].date);
  }

  /** A day ends when it says, or with the last millisecond of its UTC date. */
  predicate EndsAt(day: Day, end: Time) {
    match day.endTime
    case Some(t) => end == t
    case None => end == (day.date / DAY_MS + 1) * DAY_MS - 1
  }

  /** A pass is active exactly until 30 days after the end of the event's last
      day, the first of them when several share its date; with no days, for good. */
  lemma {:induction false} ActiveExactlyUntil(pass: PassTier, days: seq<Day>, now: Time)
    ensures IsActive(Some(pass), days, now) <==>
            forall last, end :: IsLastDay(days, last) && EndsAt(days[last], end) ==> now < end + 30 * DAY_MS
    ensures !IsActive(None, days, now)
  {
    forall last | IsLastDay(days, last) ensures last == LastDay(days) {
      OneLastDay(days, last, LastDay(days));
    }
    if days != [] {
      var last := days[LastDay(days)];
      DayEndsOnce(last);
      assert IsLastDay(days, LastDay(days)) && EndsAt(last, DayEnd(last));
    }
  }

  // ── Entitlement ──

  function Entitlement(tenantTier: SubscriptionTier, pass: Option<PassTier>, days: seq<Day>,
      now: Time): SubscriptionTier {
    if !IsActive(pass, days, now) then tenantTier
    else if TierRank(Granted(pass.value)) > TierRank(tenantTier) then Granted(pass.value)
    else tenantTier
  }

  /** What a pass adds is never taken away by a higher one, never below the
      account's own tier, and nothing more than one of the two. */
  lemma {:induction false} EntitlementIsTheGreater(tenantTier: SubscriptionTier, pass: PassTier, higher: PassTier,
      days: seq<Day>, now: Time)
    requires Rank(pass) <= Rank(higher)
    ensures var without := Entitlement(tenantTier, None, days, now);
            var with := Entitlement(tenantTier, Some(pass), days, now);
            && without == tenantTier
            && TierRank(with) == (if IsActive(Some(pass), days, now)
                                  then Max(TierRank(tenantTier), TierRank(Granted(pass))) else TierRank(tenantTier))
            && TierRank(with) <= TierRank(Entitlement(tenantTier, Some(higher), days, now))
  {
  }

  /** Which tier an event is held to: the highest with a large pass active, never the
      lowest with any pass active, and the account's own where that is higher. */
  lemma {:induction false} EntitledExactly(tenantTier: SubscriptionTier, pass: Option<PassTier>, days: seq<Day>,
      now: Time)
    ensures var tier := Entitlement(tenantTier, pass, days, now);
            && (tier == ELEVATE <==> tenantTier == ELEVATE || (pass == Some(LARGE) && IsActive(pass, days, now)))
            && (tier == SPARK <==> tenantTier == SPARK && !IsActive(pass, days, now))
  {
  }

  /** The tiers in order, and what each step up costs. */
  lemma {:induction false} HigherCostsMore(tier: PassTier, other: PassTier)
    ensures Rank(tier) < Rank(other) <==> Price(tier) < Price(other)
    ensures Price(SMALL) == 399_00 && Price(STANDARD) == 799_00 && Price(LARGE) == 1_299_00
    ensures Rank(SMALL) < Rank(STANDARD) < Rank(LARGE)
  {
  }
}
