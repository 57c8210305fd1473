/** The sliding window over connection attempts to one host. */
module RateBudget {
  import opened Util

  datatype Verdict =
    | Admitted
    | Throttled(attemptsUsed: nat, budget: nat, throttleUntil: real)

  /** Instants are never negative, so the cutoff saturates at zero. */
  function Cutoff(now: real, window: real): real {
    Max(now - window, 0.0)
  }

  /** Drops the oldest attempts while they are before the cutoff. */
  function Prune(attempts: seq<real>, cutoff: real): seq<real> {
    if attempts != [] && attempts[0] < cutoff then Prune(attempts[1..], cutoff) else attempts
  }

  /** A zero budget still admits while nothing is recorded. */
  function Try(attempts: seq<real>, budget: nat, window: real, now: real): (seq<real>, Verdict) {
    var kept := Prune(attempts, Cutoff(now, window));
    if |kept| >= budget && kept != [] then (kept, Throttled(|kept|, budget, kept[0] + window))
    else (kept + [now], Admitted)
  }

  class ConnectionRateBudget {
    const window: real
    const budget: nat
    var attempts: seq<real>

    constructor (budget: nat, window: real)
      ensures this.budget == budget && this.window == window && attempts == []
    {
      this.budget, this.window := budget, window;
      attempts := [];
    }

    method TryConsume(now: real) returns (verdict: Verdict)
      modifies this
      ensures (attempts, verdict) == Try(old(attempts), budget, window, now)
    {
      PruneOld(now);
      if |attempts| >= budget {
        if attempts != [] {
          return Throttled(|attempts|, budget, attempts[0] + window);
        }
      }
      attempts := attempts + [now];
      verdict := Admitted;
    }

    method PruneOld(now: real)
      modifies this
      ensures attempts == Prune(old(attempts), Cutoff(now, window))
    {
      var cutoff := if now >= window then now - window else 0.0;
      while attempts != [] && attempts[0] < cutoff
        invariant Prune(attempts, cutoff) == Prune(old(attempts), cutoff)
        decreases |attempts|
      {
        attempts := attempts[1..];
      }
    }
  }

  // ---------------------------------------------------------------- runs

  function AttemptsAfter(budget: nat, window: real, times: seq<real>): seq<real> {
    if times == [] then []
    else Try(AttemptsAfter(budget, window, times[..|times| - 1]), budget, window, times[|times| - 1]).0
  }

  /** The instants of the admitted attempts of a run, in order. */
  function AdmittedTimes(budget: nat, window: real, times: seq<real>): seq<real> {
    if times == [] then []
    else
      var init, now := times[..|times| - 1], times[|times| - 1];
      var before := AdmittedTimes(budget, window, init);
      if Try(AttemptsAfter(budget, window, init), budget, window, now).1.Admitted? then before + [now] else before
  }

  function EndOf(times: seq<real>): real {
    if times == [] then 0.0 else times[|times| - 1]
  }

  /** Instants from zero on that never go backwards. */
  predicate InOrder(times: seq<real>) {
    times == [] || (InOrder(times[..|times| - 1]) && EndOf(times[..|times| - 1]) <= times[|times| - 1])
  }

  ghost predicate NonDecreasing(s: seq<real>) {
    forall i, j :: 0 <= i < j < |s| ==> s[i] <= s[j]
  }

  /** Any attempt is more than a window after the one `budget` places before it. */
  ghost predicate Spaced(s: seq<real>, budget: nat, window: real) {
    forall i, j :: 0 <= i && i + budget <= j < |s| ==> s[i] + window < s[j]
  }

  /** The recorded attempts are the newest admitted ones; the others left the window before `now`. */
  ghost predicate Tracks(attempts: seq<real>, admitted: seq<real>, budget: nat, window: real, now: real) {
    && NonDecreasing(admitted) && (forall i :: 0 <= i < |admitted| ==> 0.0 <= admitted[i] <= now)
    && |attempts| <= |admitted| && |attempts| <= budget
    && attempts == admitted[|admitted| - |attempts|..]
    && (forall i :: 0 <= i < |admitted| - |attempts| ==> admitted[i] + window < now)
    && Spaced(admitted, budget, window)
  }

  lemma {:induction false} PruneIsASuffix(attempts: seq<real>, cutoff: real)
    ensures |Prune(attempts, cutoff)| <= |attempts|
    ensures Prune(attempts, cutoff) == attempts[|attempts| - |Prune(attempts, cutoff)|..]
    ensures forall i :: 0 <= i < |attempts| - |Prune(attempts, cutoff)| ==> attempts[i] < cutoff
    decreases |attempts|
  {
    if attempts != [] && attempts[0] < cutoff {
      PruneIsASuffix(attempts[1..], cutoff);
      var dropped := |attempts| - |Prune(attempts, cutoff)|;
      forall i | 0 <= i < dropped
        ensures attempts[i] < cutoff
      {
        if i > 0 { assert attempts[i] == attempts[1..][i - 1]; }
      }
    }
  }

  lemma PruneTracks(attempts: seq<real>, admitted: seq<real>, budget: nat, window: real, last: real, now: real)
    requires window >= 0.0 && 0.0 <= last <= now
    requires Tracks(attempts, admitted, budget, window, last)
    ensures Tracks(Prune(attempts, Cutoff(now, window)), admitted, budget, window, now)
  {
    var kept := Prune(attempts, Cutoff(now, window));
    PruneIsASuffix(attempts, Cutoff(now, window));
    var gone, pruned := |admitted| - |kept|, |admitted| - |attempts|;
    forall i | 0 <= i < gone
      ensures admitted[i] + window < now
    {
      if i >= pruned {
        assert admitted[i] == attempts[i - pruned];
      }
    }
    assert kept == admitted[gone..];
  }

  lemma AdmitTracks(kept: seq<real>, admitted: seq<real>, budget: nat, window: real, now: real)
    requires 0.0 <= now && |kept| < budget
    requires Tracks(kept, admitted, budget, window, now)
    ensures Tracks(kept + [now], admitted + [now], budget, window, now)
  {
    var all, gone := admitted + [now], |admitted| - |kept|;
    assert all[gone..] == kept + [now];
    forall i, j | 0 <= i && i + budget <= j < |all|
      ensures all[i] + window < all[j]
    {
      if j == |admitted| { assert i < gone; }
    }
  }

  lemma TryTracks(attempts: seq<real>, admitted: seq<real>, budget: nat, window: real, last: real, now: real)
    requires budget >= 1 && window >= 0.0 && 0.0 <= last <= now
    requires Tracks(attempts, admitted, budget, window, last)
    ensures var (after, verdict) := Try(attempts, budget, window, now);
            Tracks(after, if verdict.Admitted? then admitted + [now] else admitted, budget, window, now)
  {
    PruneTracks(attempts, admitted, budget, window, last, now);
    var kept := Prune(attempts, Cutoff(now, window));
    if |kept| < budget {
      AdmitTracks(kept, admitted, budget, window, now);
    }
  }

  lemma {:induction false} RunTracks(budget: nat, window: real, times: seq<real>)
    requires budget >= 1 && window >= 0.0 && InOrder(times)
    ensures Tracks(AttemptsAfter(budget, window, times), AdmittedTimes(budget, window, times), budget, window, EndOf(times))
    ensures EndOf(times) >= 0.0
    decreases |times|
  {
    if times != [] {
      var init, now := times[..|times| - 1], times[|times| - 1];
      RunTracks(budget, window, init);
      TryTracks(AttemptsAfter(budget, window, init), AdmittedTimes(budget, window, init), budget, window, EndOf(init), now);
    }
  }

  /** The admitted attempts inside the closed interval of one window from `t` on. */
  ghost function InWindow(admitted: seq<real>, t: real, window: real): set<nat> {
    set i: nat | i < |admitted| && t <= admitted[i] <= t + window
  }

  lemma {:induction false} IndexSpan(s: set<nat>, lo: nat, n: nat)
    requires forall i :: i in s ==> lo <= i < lo + n
    ensures |s| <= n
    decreases n
  {
    if n == 0 {
      NoElements(s);
    } else {
      var top := lo + n - 1;
      IndexSpan(s - {top}, lo, n - 1);
      assert s <= (s - {top}) + {top};
      SubsetSize(s, (s - {top}) + {top});
    }
  }

  /**
   * The window holds over every run: with instants that never go backwards, no closed interval one
   * window long contains more than `budget` admitted attempts.
   */
  lemma AtMostBudgetPerWindow(budget: nat, window: real, times: seq<real>, t: real)
    requires budget >= 1 && window >= 0.0 && InOrder(times)
    ensures |InWindow(AdmittedTimes(budget, window, times), t, window)| <= budget
  {
    RunTracks(budget, window, times);
    var admitted := AdmittedTimes(budget, window, times);
    var s := InWindow(admitted, t, window);
    if s != {} {
      var lo := LowestIndex(s);
      forall i | i in s
        ensures lo <= i < lo + budget
      {
        assert admitted[lo] + window >= admitted[i];
      }
      IndexSpan(s, lo, budget);
    }
  }

  lemma {:induction false} LowestIndex(s: set<nat>) returns (lo: nat)
    requires s != {}
    ensures lo in s && forall i :: i in s ==> lo <= i
    decreases |s|
  {
    var k := Pick(s);
    var rest := s - {k};
    assert s == rest + {k};
    if rest == {} {
      lo := k;
    } else {
      lo := LowestIndex(rest);
      if k < lo { lo := k; }
    }
  }

  /** A full window stays full until its oldest attempt is more than a window old. */
  lemma FullUntil(kept: seq<real>, budget: nat, window: real, t: real)
    requires |kept| == budget >= 1 && kept[0] >= 0.0 && t >= 0.0
    ensures t <= kept[0] + window ==>
              Try(kept, budget, window, t) == (kept, Throttled(budget, budget, kept[0] + window))
    ensures t > kept[0] + window ==> Try(kept, budget, window, t).1.Admitted?
  {
    if t > kept[0] + window {
      PruneIsASuffix(kept[1..], Cutoff(t, window));
    }
  }

  /**
   * The throttle instant is exact: after a rejection, and with no attempt recorded since, a later try
   * is rejected up to and including that instant, changing nothing, and admitted strictly after it.
   */
  lemma ThrottleInstantIsExact(budget: nat, window: real, times: seq<real>, now: real, t: real)
    requires budget >= 1 && window >= 0.0 && InOrder(times) && EndOf(times) <= now <= t
    requires Try(AttemptsAfter(budget, window, times), budget, window, now).1.Throttled?
    ensures var (kept, verdict) := Try(AttemptsAfter(budget, window, times), budget, window, now);
            && verdict.attemptsUsed == budget
            && (Try(kept, budget, window, t).1.Throttled? <==> t <= verdict.throttleUntil)
            && (t <= verdict.throttleUntil ==> Try(kept, budget, window, t) == (kept, verdict))
  {
    RunTracks(budget, window, times);
    var attempts, admitted := AttemptsAfter(budget, window, times), AdmittedTimes(budget, window, times);
    PruneTracks(attempts, admitted, budget, window, EndOf(times), now);
    var kept := Prune(attempts, Cutoff(now, window));
    assert kept[0] == admitted[|admitted| - |kept|];
    FullUntil(kept, budget, window, t);
  }
}
