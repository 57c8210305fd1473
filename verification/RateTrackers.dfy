/** Account tiers, tracker scopes and the per-key tracker of non-trading requests. */
module RateTrackers {
  import opened Util
  import opened RateCounter

  datatype Tier = Starter | Intermediate | Pro

  function ApiCap(tier: Tier): real {
    match tier case Starter => 15.0 case Intermediate => 20.0 case Pro => 20.0
  }

  function ApiDecayPerSec(tier: Tier): real {
    match tier case Starter => 0.33 case Intermediate => 0.50 case Pro => 1.00
  }

  function TradingCap(tier: Tier): real {
    match tier case Starter => 60.0 case Intermediate => 125.0 case Pro => 180.0
  }

  function TradingDecayPerSec(tier: Tier): real {
    match tier case Starter => 1.00 case Intermediate => 2.34 case Pro => 3.75
  }

  datatype Scope = ApiKeyScope(key: string) | PairScope(apiKey: string, pair: string)

  datatype Verdict = Accepted | Exceeded(current: real, cap: real, retryAt: real)

  /** The answer to a charge on `c`: a refusal reports the decayed level and when to come back. */
  function Answer(c: Counter, cost: real, now: real): Verdict {
    if Fits(c, cost, now) then Accepted
    else Exceeded(Peek(c, now), c.cap, ComputeRetryAt(Peek(c, now), c.cap, c.decayPerSec, now))
  }

  /** A misrouted scope is refused without touching a counter. */
  function Misrouted(now: real): Verdict {
    Exceeded(0.0, 0.0, now)
  }

  type ApiCounters = map<string, Counter>

  function ApiCounter(counters: ApiCounters, tier: Tier, key: string, now: real): Counter {
    if key in counters then counters[key] else Fresh(ApiCap(tier), ApiDecayPerSec(tier), now)
  }

  function ApiConsume(counters: ApiCounters, tier: Tier, scope: Scope, cost: real, now: real): (ApiCounters, Verdict) {
    if scope.PairScope? then (counters, Misrouted(now))
    else
      var c := ApiCounter(counters, tier, scope.key, now);
      (counters[scope.key := Charged(c, cost, now)], Answer(c, cost, now))
  }

  function ApiSnap(counters: ApiCounters, tier: Tier, scope: Scope, now: real): ApiCounters {
    if scope.PairScope? then counters
    else counters[scope.key := Snapped(ApiCounter(counters, tier, scope.key, now), now)]
  }

  class SpotApiRateLimitTracker {
    const tier: Tier
    var counters: ApiCounters

    constructor (tier: Tier)
      ensures this.tier == tier && counters == map[]
    {
      this.tier := tier;
      counters := map[];
    }

    method Consume(scope: Scope, cost: real, now: real) returns (verdict: Verdict)
      modifies this
      ensures (counters, verdict) == ApiConsume(old(counters), tier, scope, cost, now)
    {
      if scope.PairScope? {
        return Exceeded(0.0, 0.0, now);
      }
      var key := scope.key;
      if key !in counters {
        counters := counters[key := Fresh(ApiCap(tier), ApiDecayPerSec(tier), now)];
      }
      var c := counters[key];
      counters := counters[key := Charged(c, cost, now)];
      assert counters == old(counters)[key := Charged(c, cost, now)];
      if Fits(c, cost, now) {
        verdict := Accepted;
      } else {
        var current := counters[key].current;
        verdict := Exceeded(current, c.cap, ComputeRetryAt(current, c.cap, c.decayPerSec, now));
      }
    }

    /** The room left at `now`; a misrouted scope has none to report. */
    function Headroom(scope: Scope, now: real): Option<real>
      reads this
    {
      if scope.PairScope? then None
      else if scope.key in counters then Some(Max(ApiCap(tier) - Peek(counters[scope.key], now), 0.0))
      else Some(ApiCap(tier))
    }

    /** How long until `cost` fits, if nothing else is charged. */
    function TimeUntilHeadroom(scope: Scope, cost: real, now: real): Option<real>
      reads this
    {
      var h := Headroom(scope, now);
      if h.None? then None
      else if h.value >= cost then Some(0.0)
      else if ApiDecayPerSec(tier) <= 0.0 then None
      else Some((cost - h.value) / ApiDecayPerSec(tier))
    }

    method SnapToCap(scope: Scope, now: real)
      modifies this
      ensures counters == ApiSnap(old(counters), tier, scope, now)
    {
      if scope.PairScope? {
        return;
      }
      var key := scope.key;
      if key !in counters {
        counters := counters[key := Fresh(ApiCap(tier), ApiDecayPerSec(tier), now)];
      }
      counters := counters[key := Snapped(counters[key], now)];
    }
  }

  // ---------------------------------------------------------------- what the tracker keeps

  /** Every counter is sound and limited by the tier. */
  ghost predicate TierCounters(counters: ApiCounters, tier: Tier) {
    forall k :: k in counters ==>
      Sound(counters[k]) && counters[k].cap == ApiCap(tier) && counters[k].decayPerSec == ApiDecayPerSec(tier)
  }

  lemma ConsumeKeepsTier(counters: ApiCounters, tier: Tier, scope: Scope, cost: real, now: real)
    requires TierCounters(counters, tier) && cost >= 0.0
    ensures TierCounters(ApiConsume(counters, tier, scope, cost, now).0, tier)
    ensures TierCounters(ApiSnap(counters, tier, scope, now), tier)
  {
    if scope.ApiKeyScope? {
      var c := ApiCounter(counters, tier, scope.key, now);
      StepIsMetered(c, Charge(cost, now));
      StepIsMetered(c, Snap(now));
    }
  }

  /** The advisory headroom is the exact limit on what a charge at that instant may cost. */
  lemma HeadroomIsWhatFits(tracker: SpotApiRateLimitTracker, scope: Scope, cost: real, now: real)
    requires TierCounters(tracker.counters, tracker.tier) && scope.ApiKeyScope?
    ensures tracker.Headroom(scope, now).Some?
    ensures ApiConsume(tracker.counters, tracker.tier, scope, cost, now).1.Accepted?
            <==> cost <= tracker.Headroom(scope, now).value
  {
    var c := ApiCounter(tracker.counters, tracker.tier, scope.key, now);
    PeekDropsByDecay(c, now);
    NonNegativeProduct(c.decayPerSec, 0.0);
  }

  /** The last instant the tracker has seen for a key, or `now` when that is later or there is none. */
  function SeenAt(counters: ApiCounters, key: string, now: real): real {
    if key in counters then Max(now, counters[key].lastUpdated) else now
  }

  /**
   * The projected wait is exact: with nothing charged since, a charge the tier can hold is accepted at
   * once if there is nothing to wait for, else exactly from the wait on, counted from `now` or from the
   * counter's last update when the clock is behind it; a larger charge is never accepted.
   */
  lemma WaitForHeadroomIsExact(tracker: SpotApiRateLimitTracker, scope: Scope, cost: real, now: real, t: real)
    requires TierCounters(tracker.counters, tracker.tier) && scope.ApiKeyScope? && now <= t
    ensures tracker.TimeUntilHeadroom(scope, cost, now).Some?
    ensures var wait := tracker.TimeUntilHeadroom(scope, cost, now).value;
            ApiConsume(tracker.counters, tracker.tier, scope, cost, t).1.Accepted?
            <==> cost <= ApiCap(tracker.tier) && (wait == 0.0 || t >= SeenAt(tracker.counters, scope.key, now) + wait)
  {
    var c := ApiCounter(tracker.counters, tracker.tier, scope.key, now);
    HeadroomIsWhatFits(tracker, scope, cost, now);
    FitsAfterWait(c, cost, now, t);
    if scope.key !in tracker.counters {
      NonNegativeProduct(c.decayPerSec, 0.0);
      NonNegativeProduct(c.decayPerSec, t - now);
    }
  }

  // ---------------------------------------------------------------- the retry instant of a tier

  /** A counter of some tier, API or trading. */
  predicate OfTier(c: Counter, tier: Tier) {
    || (c.cap == ApiCap(tier) && c.decayPerSec == ApiDecayPerSec(tier))
    || (c.cap == TradingCap(tier) && c.decayPerSec == TradingDecayPerSec(tier))
  }

  /**
   * For the limits there are, a refusal's retry instant is kept exactly when the clock it was asked with
   * was not behind the counter, or there was room for a unit anyway.
   */
  lemma TiersKeepTheirPromise(c: Counter, tier: Tier, cost: real, now: real)
    requires Sound(c) && OfTier(c, tier) && !Fits(c, cost, now)
    ensures KeepsItsPromise(c, cost, now) <==> c.lastUpdated <= now || Peek(c, now) <= c.cap - 1.0
  {
    RetryKeepsItsPromise(c, cost, now);
    PeekDropsByDecay(c, now);
    DayCoversAUnit(c.decayPerSec);
  }

  lemma DayCoversAUnit(decayPerSec: real)
    requires decayPerSec >= 0.33
    ensures Decay(decayPerSec, MAX_RETRY_PROJECTION_SECS) >= 1.0
  {
    Distribute(MAX_RETRY_PROJECTION_SECS, 0.33, decayPerSec - 0.33);
    NonNegativeProduct(MAX_RETRY_PROJECTION_SECS, decayPerSec - 0.33);
  }

  // ---------------------------------------------------------------- what a refusal tells the caller

  /** A refusal reports the counter it leaves, and a retry instant that is kept unless the clock lagged. */
  lemma AnswerIsHonest(c: Counter, tier: Tier, cost: real, now: real, t: real)
    requires Sound(c) && OfTier(c, tier) && !Fits(c, cost, now)
    ensures var left, answer := Charged(c, cost, now), Answer(c, cost, now);
            && answer.Exceeded? && answer.current == left.current && answer.cap == left.cap
            && (Fits(left, 1.0, answer.retryAt) <==> c.lastUpdated <= now || left.current <= left.cap - 1.0)
            && (c.lastUpdated <= now && left.current > left.cap - 1.0 && now <= t < answer.retryAt ==> !Fits(left, 1.0, t))
            && answer.retryAt >= now && (left.current <= left.cap - 1.0 ==> answer.retryAt == now)
  {
    var left := Charged(c, cost, now);
    RefusalLeaves(c, cost, now);
    TiersKeepTheirPromise(c, tier, cost, now);
    WaitIsNotNegative(left.current - (left.cap - 1.0), c.decayPerSec);
    if c.lastUpdated <= now && now <= t {
      PeekDropsByDecay(c, now);
      DayCoversAUnit(c.decayPerSec);
      RetryInstantIsExact(c, cost, now, t);
    }
  }

  /** When the clock a request was made with is not behind the key's counter. */
  predicate ClockInOrder(counters: ApiCounters, key: string, now: real) {
    key in counters ==> counters[key].lastUpdated <= now
  }

  /**
   * A refused request: the answer is the level and the cap of the counter left, and a unit request at the
   * retry instant it gives is accepted exactly when the clock was in order or a unit had room anyway; in
   * order and with no room, it is refused at every earlier instant.
   */
  lemma RefusalIsHonest(counters: ApiCounters, tier: Tier, scope: Scope, cost: real, now: real, t: real)
    requires TierCounters(counters, tier) && scope.ApiKeyScope?
    requires ApiConsume(counters, tier, scope, cost, now).1.Exceeded?
    ensures var (after, answer) := ApiConsume(counters, tier, scope, cost, now);
            && scope.key in after && answer.current == after[scope.key].current && answer.cap == after[scope.key].cap
            && (ApiConsume(after, tier, scope, 1.0, answer.retryAt).1.Accepted?
                <==> ClockInOrder(counters, scope.key, now) || answer.current <= answer.cap - 1.0)
            && (ClockInOrder(counters, scope.key, now) && answer.current > answer.cap - 1.0 && now <= t < answer.retryAt ==>
                  ApiConsume(after, tier, scope, 1.0, t).1.Exceeded?)
  {
    AnswerIsHonest(ApiCounter(counters, tier, scope.key, now), tier, cost, now, t);
  }

  /** A request for a pair is not this tracker's: it is refused with nothing to report, and nothing changes. */
  lemma PairScopeIsMisrouted(counters: ApiCounters, tier: Tier, scope: Scope, cost: real, now: real)
    requires scope.PairScope?
    ensures ApiConsume(counters, tier, scope, cost, now) == (counters, Exceeded(0.0, 0.0, now))
    ensures ApiSnap(counters, tier, scope, now) == counters
  {
  }

  /** After a snap, with nothing charged since, only what has decayed can be charged; other keys are left alone. */
  lemma SnapExhaustsTheKey(counters: ApiCounters, tier: Tier, scope: Scope, cost: real, now: real, t: real)
    requires TierCounters(counters, tier) && scope.ApiKeyScope? && t >= SeenAt(counters, scope.key, now)
    ensures var after := ApiSnap(counters, tier, scope, now);
            && (ApiConsume(after, tier, scope, cost, t).1.Accepted?
                <==> cost <= ApiCap(tier) && cost <= Decay(ApiDecayPerSec(tier), t - SeenAt(counters, scope.key, now)))
            && after.Keys == counters.Keys + {scope.key}
            && (forall k :: k in counters && k != scope.key ==> after[k] == counters[k])
  {
    SnapLeavesTheDecay(ApiCounter(counters, tier, scope.key, now), cost, now, t);
  }

  /** Snapped counters of every tier, API and trading, hold a full load again when all of it has decayed. */
  lemma FullLoadAfterSnap(api: Counter, trading: Counter, tier: Tier, now: real, t: real)
    requires Sound(api) && api.cap == ApiCap(tier) && api.decayPerSec == ApiDecayPerSec(tier)
    requires Sound(trading) && trading.cap == TradingCap(tier) && trading.decayPerSec == TradingDecayPerSec(tier)
    requires api.lastUpdated <= now <= t && trading.lastUpdated <= now
    ensures tier.Starter? ==>
              (Fits(Snapped(api, now), 15.0, t) <==> 0.33 * (t - now) >= 15.0)
              && (Fits(Snapped(trading, now), 60.0, t) <==> t - now >= 60.0)
    ensures tier.Intermediate? ==>
              (Fits(Snapped(api, now), 20.0, t) <==> 0.50 * (t - now) >= 20.0)
              && (Fits(Snapped(trading, now), 125.0, t) <==> 2.34 * (t - now) >= 125.0)
    ensures tier.Pro? ==>
              (Fits(Snapped(api, now), 20.0, t) <==> t - now >= 20.0)
              && (Fits(Snapped(trading, now), 180.0, t) <==> 3.75 * (t - now) >= 180.0)
  {
    SnapLeavesTheDecay(api, api.cap, now, t);
    SnapLeavesTheDecay(trading, trading.cap, now, t);
  }
}
