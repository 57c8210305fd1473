/**
 * Nonce allocation by compare-and-swap, and the gate that serialises signing and sending.  Any number
 * of threads interleave their atomic steps; the clock is chosen by an adversary and may go backwards.
 */
module NonceSource {
  import opened Util

  const U64_MAX: nat := 0xFFFF_FFFF_FFFF_FFFF

  type u64 = n: nat | n <= U64_MAX

  /** One more than `current`, or the wall clock if that is ahead; saturating at the top. */
  function NextValue(current: u64, candidate: u64): u64 {
    var bumped := if current < U64_MAX then current + 1 else U64_MAX;
    if candidate > bumped then candidate else bumped
  }

  /** What happens between one load and its compare-and-swap: others raise the counter, or the swap fails spuriously. */
  datatype Interference = Interference(raisedTo: u64, spurious: bool)

  /** The highest value the counter had, from `start` and what others raised it to. */
  function Highest(start: u64, others: seq<Interference>): u64 {
    if others == [] then start
    else
      var before, raised := Highest(start, others[..|others| - 1]), others[|others| - 1].raisedTo;
      if raised > before then raised else before
  }

  /** How many of the others came between this call's load and its last try. */
  function Met(others: seq<Interference>, tries: nat): seq<Interference> {
    if tries <= |others| then others[..tries] else others
  }

  class SystemClockNonceSource {
    var counter: u64

    constructor ()
      ensures counter == 0
    {
      counter := 0;
    }

    /** Other threads only ever raise the counter. */
    method Disturb(other: Interference)
      modifies this
      ensures counter == if other.raisedTo > old(counter) then other.raisedTo else old(counter)
    {
      if other.raisedTo > counter {
        counter := other.raisedTo;
      }
    }

    method CompareExchangeWeak(current: u64, next: u64, spurious: bool) returns (swapped: bool)
      modifies this
      ensures swapped == (old(counter) == current && !spurious)
      ensures counter == if swapped then next else old(counter)
    {
      swapped := counter == current && !spurious;
      if swapped {
        counter := next;
      }
    }

    /**
     * The compare-and-swap loop against any finite interference: the nonce is the clock reading when that is
     * ahead of everything the counter held, else exactly one above the highest value it held; only at the
     * top of the range does it stay there.
     */
    method NextNonce(candidate: u64, others: seq<Interference>) returns (nonce: u64, tries: nat)
      modifies this
      ensures counter == nonce >= candidate
      ensures 1 <= tries <= |others| + 1
      ensures var held := Highest(old(counter), Met(others, tries));
              nonce == if candidate > held then candidate else if held < U64_MAX then held + 1 else U64_MAX
      ensures nonce > old(counter) || old(counter) == nonce == U64_MAX
      ensures forall i :: 0 <= i < tries && i < |others| ==>
                nonce > others[i].raisedTo || others[i].raisedTo == nonce == U64_MAX
    {
      tries := 0;
      while true
        invariant tries <= |others|
        invariant counter == Highest(old(counter), others[..tries]) >= old(counter)
        invariant forall i :: 0 <= i < tries ==> counter >= others[i].raisedTo
        decreases |others| - tries
      {
        var current := counter;
        var next := NextValue(current, candidate);
        var spurious := false;
        if tries < |others| {
          assert others[..tries + 1][..tries] == others[..tries];
          Disturb(others[tries]);
          spurious := others[tries].spurious;
        }
        var swapped := CompareExchangeWeak(current, next, spurious);
        tries := tries + 1;
        if swapped {
          assert tries > |others| ==> others[..|others|] == others;
          return next, tries;
        }
      }
    }
  }

  // ---------------------------------------------------------------- interleaved threads

  type Thread = nat

  /** Where a thread is; `gated` threads sign and send under the gate, others only want a nonce. */
  datatype Phase =
    | Idle
    | AtGate
    | Holding
    | Sampled(gated: bool, candidate: u64)
    | Loaded(gated: bool, candidate: u64, current: u64)
    | Signed(nonce: u64)
    | Sent

  datatype State = State(counter: u64, phases: map<Thread, Phase>, gate: Option<Thread>,
                         returned: seq<u64>, transport: seq<u64>)

  datatype Step =
    | Call(t: Thread, clock: u64)              // next_nonce called outside the gate
    | Enter(t: Thread)                         // a request, or its retry, arrives at the gate
    | Lock(t: Thread)
    | Sample(t: Thread, clock: u64)            // the clock is read once per call
    | Load(t: Thread)
    | CompareAndSwap(t: Thread, spurious: bool)
    | SigningFails(t: Thread)
    | Send(t: Thread)
    | Unlock(t: Thread)

  const INITIAL: State := State(0, map[], None, [], [])

  function PhaseOf(s: State, t: Thread): Phase {
    if t in s.phases then s.phases[t] else Idle
  }

  predicate Enabled(s: State, step: Step) {
    var p := PhaseOf(s, step.t);
    match step
    case Call(_, _) => p.Idle?
    case Enter(_) => p.Idle?
    case Lock(_) => p.AtGate? && s.gate.None?
    case Sample(_, _) => p.Holding?
    case Load(_) => p.Sampled?
    case CompareAndSwap(_, _) => p.Loaded?
    case SigningFails(_) => p.Holding? || p.Signed?
    case Send(_) => p.Signed?
    case Unlock(_) => p.Sent?
  }

  function Goto(s: State, t: Thread, p: Phase): State {
    s.(phases := s.phases[t := p])
  }

  /** One atomic step; a step the thread is not ready for does nothing. */
  function Next(s: State, step: Step): State {
    var t := step.t;
    var p := PhaseOf(s, t);
    if !Enabled(s, step) then s else
    match step
    case Call(_, clock) => Goto(s, t, Sampled(false, clock))
    case Enter(_) => Goto(s, t, AtGate)
    case Lock(_) => Goto(s, t, Holding).(gate := Some(t))
    case Sample(_, clock) => Goto(s, t, Sampled(true, clock))
    case Load(_) => Goto(s, t, Loaded(p.gated, p.candidate, s.counter))
    case CompareAndSwap(_, spurious) =>
      if s.counter == p.current && !spurious then
        var nonce := NextValue(p.current, p.candidate);
        Goto(s, t, if p.gated then Signed(nonce) else Idle).(counter := nonce, returned := s.returned + [nonce])
      else
        Goto(s, t, Sampled(p.gated, p.candidate))
    case SigningFails(_) => Goto(s, t, Idle).(gate := None)
    case Send(_) => Goto(s, t, Sent).(transport := s.transport + [p.nonce])
    case Unlock(_) => Goto(s, t, Idle).(gate := None)
  }

  function Run(steps: seq<Step>): State {
    if steps == [] then INITIAL else Next(Run(steps[..|steps| - 1]), steps[|steps| - 1])
  }

  // ---------------------------------------------------------------- the invariant

  /** Each value exceeds every earlier one, until the top of the range is reached. */
  ghost predicate Climbs(s: seq<u64>) {
    forall i, j :: 0 <= i < j < |s| ==> if s[i] < U64_MAX then s[i] < s[j] else s[j] == U64_MAX
  }

  /** `bound` exceeds every value, unless both are at the top. */
  ghost predicate Above(bound: u64, s: seq<u64>) {
    forall i :: 0 <= i < |s| ==> if s[i] < U64_MAX then s[i] < bound else bound == U64_MAX
  }

  ghost predicate AtMost(s: seq<u64>, bound: u64) {
    forall i :: 0 <= i < |s| ==> s[i] <= bound
  }

  predicate InGate(p: Phase) {
    p.Holding? || p.Signed? || p.Sent? || ((p.Sampled? || p.Loaded?) && p.gated)
  }

  /** A nonce that may still be sent: the source returned it, after every one that was sent. */
  ghost predicate Sendable(s: State, nonce: u64) {
    nonce <= s.counter && nonce in s.returned && Above(nonce, s.transport)
  }

  ghost predicate Inv(s: State) {
    && Climbs(s.returned) && AtMost(s.returned, s.counter)
    && Climbs(s.transport) && AtMost(s.transport, s.counter)
    && (forall t: Thread :: InGate(PhaseOf(s, t)) <==> s.gate == Some(t))
    && (forall t: Thread :: PhaseOf(s, t).Signed? ==> Sendable(s, PhaseOf(s, t).nonce))
    && (forall n :: n in s.transport ==> n in s.returned)
  }

  lemma ClimbsOn(s: seq<u64>, next: u64)
    requires Climbs(s) && Above(next, s)
    ensures Climbs(s + [next])
  {
  }

  lemma NextIsAbove(s: seq<u64>, counter: u64, candidate: u64)
    requires AtMost(s, counter)
    ensures Above(NextValue(counter, candidate), s)
    ensures AtMost(s, NextValue(counter, candidate))
  {
  }

  lemma SwapKeepsInv(s: State, t: Thread)
    requires Inv(s) && PhaseOf(s, t).Loaded? && s.counter == PhaseOf(s, t).current
    ensures Inv(Next(s, CompareAndSwap(t, false)))
  {
    var p := PhaseOf(s, t);
    var s' := Next(s, CompareAndSwap(t, false));
    NextIsAbove(s.returned, s.counter, p.candidate);
    NextIsAbove(s.transport, s.counter, p.candidate);
    ClimbsOn(s.returned, s'.counter);
    forall u: Thread
      ensures InGate(PhaseOf(s', u)) <==> s'.gate == Some(u)
      ensures PhaseOf(s', u).Signed? ==> Sendable(s', PhaseOf(s', u).nonce)
    {
      assert InGate(PhaseOf(s, u)) <==> s.gate == Some(u);
    }
  }

  lemma StepKeepsInv(s: State, step: Step)
    requires Inv(s)
    ensures Inv(Next(s, step))
  {
    var t, p := step.t, PhaseOf(s, step.t);
    var s' := Next(s, step);
    if !Enabled(s, step) {
    } else if step.CompareAndSwap? && s.counter == p.current && !step.spurious {
      SwapKeepsInv(s, t);
    } else {
      assert InGate(p) <==> s.gate == Some(t);
      if step.Send? { ClimbsOn(s.transport, p.nonce); }
      forall u: Thread
        ensures InGate(PhaseOf(s', u)) <==> s'.gate == Some(u)
        ensures PhaseOf(s', u).Signed? ==> Sendable(s', PhaseOf(s', u).nonce)
      {
        assert InGate(PhaseOf(s, u)) <==> s.gate == Some(u);
      }
    }
  }

  lemma {:induction false} RunKeepsInv(steps: seq<Step>)
    ensures Inv(Run(steps))
    decreases |steps|
  {
    if steps != [] {
      RunKeepsInv(steps[..|steps| - 1]);
      StepKeepsInv(Run(steps[..|steps| - 1]), steps[|steps| - 1]);
    }
  }

  // ---------------------------------------------------------------- how far nonces get

  /** The clock readings of a run. */
  function Clocks(steps: seq<Step>): set<u64> {
    if steps == [] then {}
    else
      var last := steps[|steps| - 1];
      Clocks(steps[..|steps| - 1]) + ClockOf(last)
  }

  predicate Sampling(p: Phase) {
    p.Sampled? || p.Loaded?
  }

  /** One above, but for the top of the range. */
  function Above1(n: u64): u64 {
    if n < U64_MAX then n + 1 else U64_MAX
  }

  function Previous(returned: seq<u64>, i: nat): u64
    requires i <= |returned|
  {
    if i == 0 then 0 else returned[i - 1]
  }

  /** The `i`-th nonce is one above the one before it, or a clock reading further ahead. */
  ghost predicate Sourced(returned: seq<u64>, i: nat, clocks: set<u64>)
    requires i < |returned|
  {
    || returned[i] == Above1(Previous(returned, i))
    || (returned[i] in clocks && returned[i] > Above1(Previous(returned, i)))
  }

  ghost predicate AllSourced(returned: seq<u64>, clocks: set<u64>) {
    forall i :: 0 <= i < |returned| ==> Sourced(returned, i, clocks)
  }

  ghost predicate Candidates(s: State, clocks: set<u64>) {
    forall t: Thread :: Sampling(PhaseOf(s, t)) ==> PhaseOf(s, t).candidate in clocks
  }

  /** The counter is the last nonce returned, and every candidate is a clock reading. */
  ghost predicate Sources(s: State, clocks: set<u64>) {
    s.counter == Previous(s.returned, |s.returned|) && Candidates(s, clocks) && AllSourced(s.returned, clocks)
  }

  lemma OneMoreSourced(returned: seq<u64>, n: u64, clocks: set<u64>)
    requires AllSourced(returned, clocks)
    requires n == Above1(Previous(returned, |returned|)) || (n in clocks && n > Above1(Previous(returned, |returned|)))
    ensures AllSourced(returned + [n], clocks) && Previous(returned + [n], |returned| + 1) == n
  {
    var more := returned + [n];
    forall i | 0 <= i < |more| ensures Sourced(more, i, clocks) {
      assert Previous(more, i) == Previous(returned, i);
      if i < |returned| { assert Sourced(returned, i, clocks); }
    }
  }

  lemma MoreClocks(returned: seq<u64>, clocks: set<u64>, more: set<u64>)
    requires AllSourced(returned, clocks) && clocks <= more
    ensures AllSourced(returned, more)
  {
    forall i | 0 <= i < |returned| ensures Sourced(returned, i, more) {
      assert Sourced(returned, i, clocks);
    }
  }

  function ClockOf(step: Step): set<u64> {
    if step.Call? || step.Sample? then {step.clock} else {}
  }

  lemma CandidatesKept(s: State, step: Step, clocks: set<u64>)
    requires Candidates(s, clocks)
    ensures Candidates(Next(s, step), clocks + ClockOf(step))
  {
    var s' := Next(s, step);
    forall t: Thread | Sampling(PhaseOf(s', t)) ensures PhaseOf(s', t).candidate in clocks + ClockOf(step) {
      assert t != step.t ==> PhaseOf(s', t) == PhaseOf(s, t);
      assert Sampling(PhaseOf(s, t)) ==> PhaseOf(s, t).candidate in clocks;
    }
  }

  lemma SourcesKept(s: State, step: Step, clocks: set<u64>)
    requires Sources(s, clocks)
    ensures Sources(Next(s, step), clocks + ClockOf(step))
  {
    CandidatesKept(s, step, clocks);
    MoreClocks(s.returned, clocks, clocks + ClockOf(step));
    var p := PhaseOf(s, step.t);
    if step.CompareAndSwap? && p.Loaded? && s.counter == p.current && !step.spurious {
      OneMoreSourced(s.returned, NextValue(p.current, p.candidate), clocks + ClockOf(step));
    } else {
      assert Next(s, step).returned == s.returned && Next(s, step).counter == s.counter;
    }
  }

  lemma {:induction false} RunSources(steps: seq<Step>)
    ensures Sources(Run(steps), Clocks(steps))
    decreases |steps|
  {
    if steps != [] {
      RunSources(steps[..|steps| - 1]);
      SourcesKept(Run(steps[..|steps| - 1]), steps[|steps| - 1], Clocks(steps[..|steps| - 1]));
    }
  }

  /**
   * Where every nonce comes from, in every interleaving: it is one above the nonce returned before it, or a
   * clock reading of the run that was further ahead.
   */
  lemma NonceIsNextOrClock(steps: seq<Step>, i: nat)
    requires i < |Run(steps).returned|
    ensures var nonce, before := Run(steps).returned[i], Previous(Run(steps).returned, i);
            nonce == (if before < U64_MAX then before + 1 else U64_MAX) || (nonce in Clocks(steps) && nonce > before + 1)
  {
    RunSources(steps);
    assert Sourced(Run(steps).returned, i, Clocks(steps));
  }

  /** How far the nonces get: the highest clock read plus one for each nonce. */
  lemma {:induction false} NoncesAreBounded(steps: seq<Step>, top: u64, i: nat)
    requires i < |Run(steps).returned| && forall c :: c in Clocks(steps) ==> c <= top
    ensures Run(steps).returned[i] <= top + i + 1
  {
    NonceIsNextOrClock(steps, i);
    if i > 0 { NoncesAreBounded(steps, top, i - 1); }
  }

  /**
   * As long as the clock and the number of nonces leave room below the top of the range, the order is
   * strict without exception, for the nonces returned and for the requests sent.
   */
  lemma StrictBelowTheTop(steps: seq<Step>, top: u64)
    requires (forall c :: c in Clocks(steps) ==> c <= top) && top + |Run(steps).returned| < U64_MAX
    ensures forall i, j :: 0 <= i < j < |Run(steps).returned| ==> Run(steps).returned[i] < Run(steps).returned[j]
    ensures forall i, j :: 0 <= i < j < |Run(steps).transport| ==> Run(steps).transport[i] < Run(steps).transport[j]
  {
    RunKeepsInv(steps);
    forall i | 0 <= i < |Run(steps).returned| ensures Run(steps).returned[i] < U64_MAX {
      NoncesAreBounded(steps, top, i);
    }
    forall i | 0 <= i < |Run(steps).transport| ensures Run(steps).transport[i] < U64_MAX {
      assert Run(steps).transport[i] in Run(steps).transport;
      assert Run(steps).transport[i] in Run(steps).returned;
    }
  }

  // ---------------------------------------------------------------- what callers rely on

  /**
   * Interleaved nonces: in every interleaving, returned nonces strictly increase in the order the swaps
   * succeed as long as the earlier one is below the top of the range; from the top on they repeat it.
   */
  lemma ReturnedNoncesClimb(steps: seq<Step>, i: nat, j: nat)
    requires i < j < |Run(steps).returned|
    ensures Run(steps).returned[i] < Run(steps).returned[j] <==> Run(steps).returned[i] < U64_MAX
  {
    RunKeepsInv(steps);
  }

  /** Real-time order: whatever is returned after a point of the run exceeds everything returned before it. */
  lemma {:induction false} LaterCallsReturnMore(earlier: seq<Step>, later: seq<Step>)
    ensures var before, all := Run(earlier).returned, Run(earlier + later).returned;
            && |before| <= |all| && all[..|before|] == before
            && forall i, j :: 0 <= i < |before| <= j < |all| && all[i] < U64_MAX ==> all[i] < all[j]
    decreases |later|
  {
    if later == [] {
      assert earlier + later == earlier;
    } else {
      var init := later[..|later| - 1];
      assert (earlier + later)[..|earlier + later| - 1] == earlier + init;
      LaterCallsReturnMore(earlier, init);
    }
    RunKeepsInv(earlier + later);
  }

  /**
   * The gate: signed requests enter the transport in strictly increasing nonce order, across callers,
   * retries, failed signatures and nonces taken outside the gate, up to the top of the range; and each
   * carries a nonce the source returned.
   */
  lemma SignedRequestsArriveInOrder(steps: seq<Step>, i: nat, j: nat)
    requires i < j < |Run(steps).transport|
    ensures Run(steps).transport[i] < Run(steps).transport[j] <==> Run(steps).transport[i] < U64_MAX
    ensures Run(steps).transport[i] in Run(steps).returned && Run(steps).transport[j] in Run(steps).returned
  {
    RunKeepsInv(steps);
  }

  /** The same threads with a gate that lets everyone in. */
  function NextUngated(s: State, step: Step): State {
    if step.Lock? && PhaseOf(s, step.t).AtGate? then Goto(s, step.t, Holding).(gate := Some(step.t))
    else Next(s, step)
  }

  /** One signed request up to its signature, with the clock at zero. */
  function SignUngated(s: State, t: Thread): State {
    var sampled := NextUngated(NextUngated(NextUngated(s, Enter(t)), Lock(t)), Sample(t, 0));
    NextUngated(NextUngated(sampled, Load(t)), CompareAndSwap(t, false))
  }

  lemma SignUngatedGives(s: State, t: Thread)
    requires PhaseOf(s, t).Idle? && s.counter < U64_MAX
    ensures var n := s.counter + 1;
            SignUngated(s, t) == State(n, s.phases[t := Signed(n)], Some(t), s.returned + [n], s.transport)
  {
    var sampled := NextUngated(NextUngated(NextUngated(s, Enter(t)), Lock(t)), Sample(t, 0));
    assert sampled == Goto(s, t, Sampled(true, 0)).(gate := Some(t));
    assert NextUngated(sampled, Load(t)) == Goto(s, t, Loaded(true, 0, s.counter)).(gate := Some(t));
  }

  lemma SendUngatedGives(s: State, t: Thread, u: Thread)
    requires PhaseOf(s, t).Signed?
    ensures var after := NextUngated(s, Send(t));
            && after.transport == s.transport + [PhaseOf(s, t).nonce]
            && (u != t ==> PhaseOf(after, u) == PhaseOf(s, u))
  {
  }

  lemma BothSign(s: State, a: Thread, b: Thread)
    requires a != b && PhaseOf(s, a).Idle? && PhaseOf(s, b).Idle? && s.counter + 1 < U64_MAX
    ensures var signed := SignUngated(SignUngated(s, a), b);
            && signed.transport == s.transport
            && PhaseOf(signed, a) == Signed(s.counter + 1) && PhaseOf(signed, b) == Signed(s.counter + 2)
  {
    SignUngatedGives(s, a);
    var first := SignUngated(s, a);
    assert first.counter == s.counter + 1;
    assert PhaseOf(first, a) == Signed(s.counter + 1) && PhaseOf(first, b).Idle?;
    SignUngatedGives(first, b);
  }

  /** Without the gate the order is lost: two requests signed in turn can be sent the other way round. */
  lemma GateIsNeeded(s: State, a: Thread, b: Thread)
    requires a != b && PhaseOf(s, a).Idle? && PhaseOf(s, b).Idle? && s.counter + 1 < U64_MAX
    ensures var signed := SignUngated(SignUngated(s, a), b);
            NextUngated(NextUngated(signed, Send(b)), Send(a)).transport == s.transport + [s.counter + 2] + [s.counter + 1]
  {
    BothSign(s, a, b);
    var signed := SignUngated(SignUngated(s, a), b);
    SendUngatedGives(signed, b, a);
    SendUngatedGives(NextUngated(signed, Send(b)), a, a);
  }
}
