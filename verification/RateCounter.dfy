/**
 * The decaying counter behind every rate limit.  Amounts and instants are exact reals; an instant
 * may be earlier than one seen before, because callers sample the clock before taking the lock.
 */
module RateCounter {
  import opened Util

  datatype Counter = Counter(current: real, cap: real, decayPerSec: real, lastUpdated: real)

  function Fresh(cap: real, decayPerSec: real, now: real): Counter {
    Counter(0.0, cap, decayPerSec, now)
  }

  ghost predicate Sound(c: Counter) {
    0.0 <= c.current <= c.cap && c.decayPerSec >= 0.0
  }

  function Decay(perSec: real, seconds: real): real {
    perSec * seconds
  }

  /** What has decayed away by `now`; a clock that went backwards decays nothing. */
  function Decayed(c: Counter, now: real): real {
    Decay(c.decayPerSec, Max(now - c.lastUpdated, 0.0))
  }

  /** The level projected at `now`. */
  function Peek(c: Counter, now: real): real {
    Max(c.current - Decayed(c, now), 0.0)
  }

  function At(c: Counter, level: real, now: real): Counter {
    c.(current := level, lastUpdated := Max(now, c.lastUpdated))
  }

  predicate Fits(c: Counter, cost: real, now: real) {
    Peek(c, now) + cost <= c.cap
  }

  /** A charge that does not fit still records the decay. */
  function Charged(c: Counter, cost: real, now: real): Counter {
    At(c, if Fits(c, cost, now) then Peek(c, now) + cost else Peek(c, now), now)
  }

  function Credited(c: Counter, cost: real, now: real): Counter {
    At(c, Max(Peek(c, now) - cost, 0.0), now)
  }

  function Saturated(c: Counter, cost: real, now: real): Counter {
    At(c, Min(Peek(c, now) + cost, c.cap), now)
  }

  function Snapped(c: Counter, now: real): Counter {
    At(c, c.cap, now)
  }

  class RateLimitCounter {
    var current: real
    var cap: real
    var decayPerSec: real
    var lastUpdated: real

    function View(): Counter
      reads this
    {
      Counter(current, cap, decayPerSec, lastUpdated)
    }

    constructor (cap: real, decayPerSec: real, now: real)
      ensures View() == Fresh(cap, decayPerSec, now)
    {
      this.cap, this.decayPerSec := cap, decayPerSec;
      current, lastUpdated := 0.0, now;
    }

    method PeekCurrent(now: real) returns (level: real)
      ensures level == Peek(View(), now)
    {
      var elapsed := if now > lastUpdated then now - lastUpdated else 0.0;
      level := current - decayPerSec * elapsed;
      if level < 0.0 {
        level := 0.0;
      }
    }

    method Charge(cost: real, now: real) returns (charged: bool)
      modifies this
      ensures charged == Fits(old(View()), cost, now)
      ensures View() == Charged(old(View()), cost, now)
    {
      var decayed := PeekCurrent(now);
      if decayed + cost > cap {
        current := decayed;
        lastUpdated := Max(now, lastUpdated);
        return false;
      }
      current := decayed + cost;
      lastUpdated := Max(now, lastUpdated);
      charged := true;
    }

    method Credit(cost: real, now: real)
      modifies this
      ensures View() == Credited(old(View()), cost, now)
    {
      var decayed := PeekCurrent(now);
      current := Max(decayed - cost, 0.0);
      lastUpdated := Max(now, lastUpdated);
    }

    method ChargeSaturating(cost: real, now: real)
      modifies this
      ensures View() == Saturated(old(View()), cost, now)
    {
      var decayed := PeekCurrent(now);
      current := Min(decayed + cost, cap);
      lastUpdated := Max(now, lastUpdated);
    }

    method SnapToCap(now: real)
      modifies this
      ensures View() == Snapped(old(View()), now)
    {
      current := cap;
      lastUpdated := Max(now, lastUpdated);
    }
  }

  // ---------------------------------------------------------------- runs

  datatype Op =
    | Charge(cost: real, now: real)
    | Credit(cost: real, now: real)
    | Saturate(cost: real, now: real)
    | Snap(now: real)

  function Step(c: Counter, op: Op): Counter {
    match op
    case Charge(cost, now) => Charged(c, cost, now)
    case Credit(cost, now) => Credited(c, cost, now)
    case Saturate(cost, now) => Saturated(c, cost, now)
    case Snap(now) => Snapped(c, now)
  }

  /** Only a charge can be refused. */
  predicate Accepts(c: Counter, op: Op) {
    op.Charge? ==> Fits(c, op.cost, op.now)
  }

  function After(c: Counter, ops: seq<Op>): Counter {
    if ops == [] then c else Step(After(c, ops[..|ops| - 1]), ops[|ops| - 1])
  }

  predicate NonNegative(ops: seq<Op>) {
    forall i :: 0 <= i < |ops| ==> ops[i].Snap? || ops[i].cost >= 0.0
  }

  function AcceptedBy(c: Counter, op: Op): real {
    if op.Charge? && Accepts(c, op) then op.cost else 0.0
  }

  function CreditedBy(op: Op): real {
    if op.Credit? then op.cost else 0.0
  }

  /** The total cost of the accepted charges of a run. */
  function AcceptedCost(c: Counter, ops: seq<Op>): real {
    if ops == [] then 0.0
    else AcceptedCost(c, ops[..|ops| - 1]) + AcceptedBy(After(c, ops[..|ops| - 1]), ops[|ops| - 1])
  }

  function CreditedCost(ops: seq<Op>): real {
    if ops == [] then 0.0 else CreditedCost(ops[..|ops| - 1]) + CreditedBy(ops[|ops| - 1])
  }

  /** Going from `a` to `b`, the level accounts for what was accepted, short of decay and credits. */
  ghost predicate Metered(a: Counter, b: Counter, accepted: real, credited: real) {
    && Sound(b) && b.cap == a.cap && b.decayPerSec == a.decayPerSec && b.lastUpdated >= a.lastUpdated
    && accepted <= b.current - a.current + Decay(a.decayPerSec, b.lastUpdated - a.lastUpdated) + credited
  }

  lemma PeekDropsByDecay(c: Counter, now: real)
    requires Sound(c)
    ensures c.current - Decayed(c, now) <= Peek(c, now) <= c.current
    ensures Decayed(c, now) == Decay(c.decayPerSec, Max(now, c.lastUpdated) - c.lastUpdated)
  {
    NonNegativeProduct(c.decayPerSec, Max(now - c.lastUpdated, 0.0));
    assert Max(now, c.lastUpdated) - c.lastUpdated == Max(now - c.lastUpdated, 0.0);
  }

  /** Moving to `now` at a level that covers what was accepted beyond the decayed one. */
  lemma AdvanceIsMetered(c: Counter, level: real, now: real, accepted: real, credited: real)
    requires Sound(c) && 0.0 <= level <= c.cap
    requires level >= Peek(c, now) + accepted - credited
    ensures Metered(c, At(c, level, now), accepted, credited)
  {
    PeekDropsByDecay(c, now);
  }

  lemma StepIsMetered(c: Counter, op: Op)
    requires Sound(c) && (op.Snap? || op.cost >= 0.0)
    ensures Metered(c, Step(c, op), AcceptedBy(c, op), CreditedBy(op))
  {
    PeekDropsByDecay(c, op.now);
    AdvanceIsMetered(c, Step(c, op).current, op.now, AcceptedBy(c, op), CreditedBy(op));
  }

  /** Two metered stretches in a row are one. */
  lemma MeteredSum(a: Counter, b: Counter, c: Counter, x: real, y: real, xCredit: real, yCredit: real)
    requires Metered(a, b, x, xCredit) && Metered(b, c, y, yCredit)
    ensures Metered(a, c, x + y, xCredit + yCredit)
  {
    Distribute(a.decayPerSec, b.lastUpdated - a.lastUpdated, c.lastUpdated - b.lastUpdated);
  }

  lemma {:induction false} RunIsMetered(c: Counter, ops: seq<Op>)
    requires Sound(c) && NonNegative(ops)
    ensures Metered(c, After(c, ops), AcceptedCost(c, ops), CreditedCost(ops))
    decreases |ops|
  {
    if ops == [] {
      assert Decay(c.decayPerSec, 0.0) == 0.0;
    } else {
      var init, last := ops[..|ops| - 1], ops[|ops| - 1];
      RunIsMetered(c, init);
      var mid := After(c, init);
      StepIsMetered(mid, last);
      MeteredSum(c, mid, Step(mid, last), AcceptedCost(c, init), AcceptedBy(mid, last), CreditedCost(init), CreditedBy(last));
    }
  }

  /** The leaky-bucket bound between two points of a run. */
  ghost predicate WithinBucket(a: Counter, b: Counter, accepted: real, credited: real) {
    && 0.0 <= b.current <= b.cap == a.cap
    && a.lastUpdated <= b.lastUpdated
    && accepted <= a.cap + Decay(a.decayPerSec, b.lastUpdated - a.lastUpdated) + credited
  }

  lemma MeteredIsBounded(a: Counter, b: Counter, accepted: real, credited: real)
    requires Sound(a) && Metered(a, b, accepted, credited)
    ensures WithinBucket(a, b, accepted, credited)
  {
  }

  /**
   * The bucket bound, over any stretch of any run and whatever instants are supplied: the level stays
   * within the cap, and accepted charges total at most the cap, plus decay over the advance of
   * `lastUpdated`, plus the credits refunded.
   */
  lemma BucketBound(c: Counter, ops: seq<Op>)
    requires Sound(c) && NonNegative(ops)
    ensures WithinBucket(c, After(c, ops), AcceptedCost(c, ops), CreditedCost(ops))
  {
    RunIsMetered(c, ops);
    MeteredIsBounded(c, After(c, ops), AcceptedCost(c, ops), CreditedCost(ops));
  }

  lemma Distribute(d: real, x: real, y: real)
    ensures Decay(d, x + y) == Decay(d, x) + Decay(d, y)
  {
  }

  lemma NonNegativeProduct(d: real, x: real)
    requires d >= 0.0 && x >= 0.0
    ensures Decay(d, x) >= 0.0
  {
  }

  // ---------------------------------------------------------------- rejected charges are invisible

  /** From `t` on the two counters show the same level. */
  ghost predicate SameFrom(a: Counter, b: Counter, t: real) {
    && a.cap == b.cap && a.decayPerSec == b.decayPerSec
    && a.lastUpdated <= t && b.lastUpdated <= t
    && Peek(a, t) == Peek(b, t)
  }

  /** Decay composes: recording it at `t` changes no later level. */
  lemma DecayComposes(c: Counter, t: real, u: real)
    requires c.decayPerSec >= 0.0 && c.lastUpdated <= t <= u
    ensures Peek(c, u) == Max(Peek(c, t) - Decay(c.decayPerSec, u - t), 0.0)
    ensures Peek(At(c, Peek(c, t), t), u) == Peek(c, u)
  {
    var p, q := Decay(c.decayPerSec, t - c.lastUpdated), Decay(c.decayPerSec, u - t);
    Distribute(c.decayPerSec, t - c.lastUpdated, u - t);
    NonNegativeProduct(c.decayPerSec, u - t);
    assert Decayed(c, t) == p && Decayed(c, u) == p + q;
  }

  lemma SameLater(a: Counter, b: Counter, t: real, u: real)
    requires SameFrom(a, b, t) && a.decayPerSec >= 0.0 && t <= u
    ensures SameFrom(a, b, u)
  {
    DecayComposes(a, t, u);
    DecayComposes(b, t, u);
  }

  function EndOf(ops: seq<Op>, start: real): real {
    if ops == [] then start else ops[|ops| - 1].now
  }

  /** Instants that never go backwards, from `start` on. */
  predicate InOrder(ops: seq<Op>, start: real) {
    ops == [] || (InOrder(ops[..|ops| - 1], start) && EndOf(ops[..|ops| - 1], start) <= ops[|ops| - 1].now)
  }

  /** Which operations of a run are accepted. */
  function Outcomes(c: Counter, ops: seq<Op>): seq<bool> {
    if ops == [] then []
    else Outcomes(c, ops[..|ops| - 1]) + [Accepts(After(c, ops[..|ops| - 1]), ops[|ops| - 1])]
  }

  predicate AllAccepted(c: Counter, ops: seq<Op>) {
    ops == [] || (AllAccepted(c, ops[..|ops| - 1]) && Accepts(After(c, ops[..|ops| - 1]), ops[|ops| - 1]))
  }

  /** The run with its rejected charges deleted. */
  function WithoutRejected(c: Counter, ops: seq<Op>): seq<Op> {
    if ops == [] then []
    else
      var init, last := ops[..|ops| - 1], ops[|ops| - 1];
      WithoutRejected(c, init) + if Accepts(After(c, init), last) then [last] else []
  }

  lemma AlikeStepAlike(a: Counter, b: Counter, op: Op)
    requires SameFrom(a, b, op.now)
    ensures Accepts(a, op) == Accepts(b, op)
    ensures SameFrom(Step(a, op), Step(b, op), op.now)
  {
  }

  /** A refused charge leaves a counter that looks the same from then on. */
  lemma RefusalIsInvisible(a: Counter, b: Counter, op: Op)
    requires SameFrom(a, b, op.now) && !Accepts(a, op)
    ensures SameFrom(Step(a, op), b, op.now)
  {
  }

  /** Counters that look alike answer alike, and stay alike. */
  lemma {:induction false} AlikeRunAlike(a: Counter, b: Counter, t: real, ops: seq<Op>)
    requires SameFrom(a, b, t) && a.decayPerSec >= 0.0 && InOrder(ops, t)
    ensures Outcomes(a, ops) == Outcomes(b, ops)
    ensures SameFrom(After(a, ops), After(b, ops), EndOf(ops, t)) && After(a, ops).decayPerSec == a.decayPerSec
    decreases |ops|
  {
    if ops != [] {
      var init, last := ops[..|ops| - 1], ops[|ops| - 1];
      AlikeRunAlike(a, b, t, init);
      SameLater(After(a, init), After(b, init), EndOf(init, t), last.now);
      AlikeStepAlike(After(a, init), After(b, init), last);
    }
  }

  /**
   * With instants that never go backwards, deleting every rejected charge from a run changes no later
   * outcome: what is left is all accepted, and every continuation is answered the same.
   */
  lemma {:induction false} RejectionIsInvisible(c: Counter, ops: seq<Op>, future: seq<Op>)
    requires c.decayPerSec >= 0.0
    requires InOrder(ops, c.lastUpdated) && InOrder(future, EndOf(ops, c.lastUpdated))
    ensures AllAccepted(c, WithoutRejected(c, ops))
    ensures Outcomes(After(c, ops), future) == Outcomes(After(c, WithoutRejected(c, ops)), future)
  {
    KeptRunLooksTheSame(c, ops);
    AlikeRunAlike(After(c, ops), After(c, WithoutRejected(c, ops)), EndOf(ops, c.lastUpdated), future);
  }

  lemma {:induction false} KeptRunLooksTheSame(c: Counter, ops: seq<Op>)
    requires c.decayPerSec >= 0.0 && InOrder(ops, c.lastUpdated)
    ensures AllAccepted(c, WithoutRejected(c, ops))
    ensures SameFrom(After(c, ops), After(c, WithoutRejected(c, ops)), EndOf(ops, c.lastUpdated))
    ensures After(c, ops).decayPerSec == c.decayPerSec
    decreases |ops|
  {
    if ops != [] {
      var init, last := ops[..|ops| - 1], ops[|ops| - 1];
      KeptRunLooksTheSame(c, init);
      var kept := WithoutRejected(c, init);
      SameLater(After(c, init), After(c, kept), EndOf(init, c.lastUpdated), last.now);
      if Accepts(After(c, init), last) {
        AlikeStepAlike(After(c, init), After(c, kept), last);
        assert (kept + [last])[..|kept|] == kept;
      } else {
        RefusalIsInvisible(After(c, init), After(c, kept), last);
        assert WithoutRejected(c, ops) == kept;
      }
    }
  }

  // ---------------------------------------------------------------- refunds, saturation and snaps

  /** Refunding an accepted charge at once leaves every later level as if it had not been made. */
  lemma CreditUndoesCharge(c: Counter, cost: real, now: real, t: real)
    requires Sound(c) && cost >= 0.0 && Fits(c, cost, now) && t >= Max(now, c.lastUpdated)
    ensures Peek(Credited(Charged(c, cost, now), cost, now), t) == Peek(c, t)
  {
    var seen := Max(now, c.lastUpdated);
    SeenLevel(c, now);
    DecayComposes(c, seen, t);
    var charged := Charged(c, cost, now);
    PeekDropsByDecay(c, now);
    SeenLevel(charged, now);
    assert Decay(c.decayPerSec, 0.0) == 0.0;
    assert Credited(charged, cost, now) == At(c, Peek(c, seen), seen);
  }

  /** A refund makes exactly its own cost of room, as far as there is anything to refund. */
  lemma CreditMakesRoom(c: Counter, cost: real, x: real, now: real)
    requires Sound(c) && cost >= 0.0
    ensures Fits(Credited(c, cost, now), x, now) <==> x <= c.cap && Fits(c, x - cost, now)
  {
    PeekDropsByDecay(c, now);
    SeenLevel(Credited(c, cost, now), now);
  }

  /** A saturating charge is a charge when it fits and a snap when it does not. */
  lemma SaturatingIsChargeOrSnap(c: Counter, cost: real, now: real)
    ensures Saturated(c, cost, now) == if Fits(c, cost, now) then Charged(c, cost, now) else Snapped(c, now)
  {
  }

  /** After a snap only what has decayed since can be charged. */
  lemma SnapLeavesTheDecay(c: Counter, cost: real, now: real, t: real)
    requires Sound(c) && t >= Max(now, c.lastUpdated)
    ensures Fits(Snapped(c, now), cost, t)
            <==> cost <= c.cap && cost <= Decay(c.decayPerSec, t - Max(now, c.lastUpdated))
  {
  }

  // ---------------------------------------------------------------- the projected retry instant

  const MAX_RETRY_PROJECTION_SECS: real := 86400.0

  /** When a counter should regain one unit of room, looking no further ahead than a day. */
  function ComputeRetryAt(current: real, cap: real, decayPerSec: real, now: real): real {
    if decayPerSec <= 0.0 then now
    else now + Min(Max(current - (cap - 1.0), 0.0) / decayPerSec, MAX_RETRY_PROJECTION_SECS)
  }

  /** The counter after a charge supplied with `now`, which the counter may have seen past. */
  ghost predicate UpdatedSince(c: Counter, now: real) {
    Sound(c) && c.lastUpdated >= now
  }

  lemma RefusalLeaves(c: Counter, cost: real, now: real)
    requires Sound(c) && !Fits(c, cost, now)
    ensures var refused := Charged(c, cost, now);
            && UpdatedSince(refused, now) && refused.lastUpdated == Max(now, c.lastUpdated)
            && refused.current == Peek(c, now) && refused.cap == c.cap && refused.decayPerSec == c.decayPerSec
  {
    NonNegativeProduct(c.decayPerSec, Max(now - c.lastUpdated, 0.0));
  }

  lemma UnitFitsWhen(c: Counter, t: real)
    requires Sound(c)
    ensures t >= c.lastUpdated ==>
              (Fits(c, 1.0, t) <==> c.cap >= 1.0 && c.current - (c.cap - 1.0) <= Decay(c.decayPerSec, t - c.lastUpdated))
    ensures t <= c.lastUpdated ==> (Fits(c, 1.0, t) <==> c.current <= c.cap - 1.0)
  {
    if t <= c.lastUpdated { assert Decay(c.decayPerSec, 0.0) == 0.0; }
  }

  lemma DivideBound(a: real, d: real, x: real)
    requires d > 0.0
    ensures a <= Decay(d, x) <==> a / d <= x
  {
    var q := a / d;
    assert a == d * q;
    if q <= x {
      NonNegativeProduct(d, x - q);
    } else {
      assert d * (q - x) > 0.0;
    }
  }

  /** How long until `cost` fits, projected at `now`. */
  function Wait(c: Counter, cost: real, now: real): real
    requires c.decayPerSec > 0.0
  {
    if c.cap - Peek(c, now) >= cost then 0.0 else (cost - (c.cap - Peek(c, now))) / c.decayPerSec
  }

  /** Waiting counts from the later of the query and what the counter has already seen. */
  lemma FitsAfterWait(c: Counter, cost: real, now: real, t: real)
    requires Sound(c) && c.decayPerSec > 0.0 && now <= t
    ensures Fits(c, cost, t) <==>
            cost <= c.cap && (Wait(c, cost, now) == 0.0 || t >= Max(now, c.lastUpdated) + Wait(c, cost, now))
  {
    var seen := Max(now, c.lastUpdated);
    SeenLevel(c, now);
    if t >= seen {
      DecayComposes(c, seen, t);
      NonNegativeProduct(c.decayPerSec, t - seen);
      DivideBound(cost - (c.cap - Peek(c, now)), c.decayPerSec, t - seen);
      DivideBound(cost - (c.cap - Peek(c, now)), c.decayPerSec, 0.0);
    } else {
      SeenLevel(c, t);
      DivideBound(cost - (c.cap - Peek(c, now)), c.decayPerSec, 0.0);
    }
  }

  /** An instant the counter has seen past shows the level it has now. */
  lemma SeenLevel(c: Counter, now: real)
    requires Sound(c)
    ensures Peek(c, now) == Peek(c, Max(now, c.lastUpdated))
    ensures now <= c.lastUpdated ==> Peek(c, now) == c.current
  {
    assert Decay(c.decayPerSec, 0.0) == 0.0;
  }

  /**
   * After a refused charge and nothing else, a unit charge is accepted exactly from the projected
   * instant on, later by as much as the supplied clock was behind the counter; whenever the limit
   * decays, can hold a unit and the wait is at most a day.
   */
  lemma RetryInstantIsExact(c: Counter, cost: real, now: real, t: real)
    requires Sound(c) && now <= t && !Fits(c, cost, now)
    requires c.cap >= 1.0 && c.decayPerSec > 0.0
    requires Peek(c, now) - (c.cap - 1.0) <= Decay(c.decayPerSec, 86400.0)
    ensures var refused := Charged(c, cost, now);
            var retryAt := ComputeRetryAt(refused.current, refused.cap, refused.decayPerSec, now);
            Fits(refused, 1.0, t) <==> refused.current <= c.cap - 1.0 || t >= retryAt + Max(c.lastUpdated - now, 0.0)
  {
    var refused := Charged(c, cost, now);
    RefusalLeaves(c, cost, now);
    UnitFitsWhen(refused, t);
    var short := refused.current - (refused.cap - 1.0);
    DivideBound(short, refused.decayPerSec, MAX_RETRY_PROJECTION_SECS);
    DivideBound(short, refused.decayPerSec, t - refused.lastUpdated);
    DivideBound(short, refused.decayPerSec, 0.0);
    NonNegativeProduct(refused.decayPerSec, Max(t - refused.lastUpdated, 0.0));
  }

  /** Whether a unit charge is accepted at the instant a refusal projects. */
  ghost predicate KeepsItsPromise(c: Counter, cost: real, now: real) {
    var refused := Charged(c, cost, now);
    Fits(refused, 1.0, ComputeRetryAt(refused.current, refused.cap, refused.decayPerSec, now))
  }

  /** Whether the projected instant keeps its promise, for every limit and every clock: the exact condition. */
  lemma RetryKeepsItsPromise(c: Counter, cost: real, now: real)
    requires Sound(c) && !Fits(c, cost, now)
    ensures var short := Peek(c, now) - (c.cap - 1.0);
            KeepsItsPromise(c, cost, now)
            <==> c.cap >= 1.0
                 && (short <= 0.0
                     || (c.lastUpdated <= now && c.decayPerSec > 0.0
                         && short <= Decay(c.decayPerSec, 86400.0)))
  {
    var refused := Charged(c, cost, now);
    RefusalLeaves(c, cost, now);
    var short := refused.current - (refused.cap - 1.0);
    if c.decayPerSec > 0.0 {
      var wait := Min(Max(short, 0.0) / c.decayPerSec, MAX_RETRY_PROJECTION_SECS);
      WaitIsNotNegative(short, c.decayPerSec);
      UnitFitsWhen(refused, now + wait);
      DivideBound(short, c.decayPerSec, MAX_RETRY_PROJECTION_SECS);
      DivideBound(short, c.decayPerSec, wait);
      if short > 0.0 && now < c.lastUpdated { LaggingClock(refused, short, now, wait); }
    } else {
      UnitFitsWhen(refused, now);
    }
  }

  lemma WaitIsNotNegative(short: real, d: real)
    requires d > 0.0
    ensures Max(short, 0.0) / d >= 0.0
    ensures short <= 0.0 ==> Max(short, 0.0) / d == 0.0
    ensures short > 0.0 ==> Max(short, 0.0) / d == short / d > 0.0
  {
    DivideBound(Max(short, 0.0), d, 0.0);
  }

  /** A wait counted from before the counter's last update ends while the unit is still short. */
  lemma LaggingClock(refused: Counter, short: real, now: real, wait: real)
    requires Sound(refused) && refused.decayPerSec > 0.0 && now < refused.lastUpdated
    requires short == refused.current - (refused.cap - 1.0) > 0.0 && wait <= short / refused.decayPerSec
    ensures !Fits(refused, 1.0, now + wait)
  {
    UnitFitsWhen(refused, now + wait);
    DivideBound(short, refused.decayPerSec, now + wait - refused.lastUpdated);
  }

  /** A refusal against a full counter at a clock ten seconds behind it: a unit is refused at the projected instant. */
  lemma StaleClockBreaksThePromise()
    ensures var c := Counter(15.0, 15.0, 0.33, 100.0);
            Sound(c) && !Fits(c, 1.0, 90.0) && !KeepsItsPromise(c, 1.0, 90.0)
  {
    var c := Counter(15.0, 15.0, 0.33, 100.0);
    SeenLevel(c, 90.0);
    RetryKeepsItsPromise(c, 1.0, 90.0);
  }
}
