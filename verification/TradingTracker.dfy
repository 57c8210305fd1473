/**
 * The trading tracker: one counter per (API key, pair), the least recently used of which is dropped
 * when a new pair is charged and the map is full.
 */
module TradingTracker {
  import opened Util
  import opened RateCounter
  import opened RateTrackers

  datatype PairKey = PairKey(apiKey: string, pair: string)

  /** The limits every counter of one tracker starts with. */
  datatype Limits = Limits(cap: real, decayPerSec: real, lruCap: nat)

  /** `order` lists the tracked keys, least recently charged or snapped first. */
  datatype Tracker = Tracker(counters: map<PairKey, Counter>, order: seq<PairKey>)

  // ---------------------------------------------------------------- the access order

  /** The position of the first other key, or the length. */
  function FirstOther(order: seq<PairKey>, key: PairKey): (i: nat)
    ensures i <= |order|
  {
    if order == [] || order[0] != key then 0 else 1 + FirstOther(order[1..], key)
  }

  function DropAt(order: seq<PairKey>, i: nat): seq<PairKey> {
    if i < |order| then order[..i] + order[i + 1..] else order
  }

  /** Moves `key` to the back, adding it if it was not there. */
  function Promote(order: seq<PairKey>, key: PairKey): seq<PairKey> {
    DropAt(order, Find(order, key)) + [key]
  }

  function PromoteAll(order: seq<PairKey>, keys: seq<PairKey>): seq<PairKey> {
    if keys == [] then order else Promote(PromoteAll(order, keys[..|keys| - 1]), keys[|keys| - 1])
  }

  // ---------------------------------------------------------------- operations

  /** Drops the least recently used key other than `key`, if there is one. */
  function Evicted(t: Tracker, key: PairKey): (Tracker, Option<PairKey>) {
    var i := FirstOther(t.order, key);
    if i == |t.order| then (t, None)
    else (Tracker(t.counters - {t.order[i]}, DropAt(t.order, i)), Some(t.order[i]))
  }

  /** Insert-or-promote, evicting first when a new key does not fit. */
  function Touched(t: Tracker, l: Limits, key: PairKey, now: real): (Tracker, Option<PairKey>) {
    var promoted := t.(order := Promote(t.order, key));
    if key in t.counters then (promoted, None)
    else
      var (room, evicted) := if |t.counters| >= l.lruCap then Evicted(promoted, key) else (promoted, None);
      (room.(counters := room.counters[key := Fresh(l.cap, l.decayPerSec, now)]), evicted)
  }

  function Consumed(t: Tracker, l: Limits, key: PairKey, cost: real, now: real): Tracker {
    var touched := Touched(t, l, key, now).0;
    var c := if key in touched.counters then touched.counters[key] else Fresh(l.cap, l.decayPerSec, now);
    touched.(counters := touched.counters[key := Charged(c, cost, now)])
  }

  function ConsumeAnswer(t: Tracker, l: Limits, key: PairKey, cost: real, now: real): Verdict {
    Answer(MetBy(t, l, key, now), cost, now)
  }

  function CreditedPair(t: Tracker, key: PairKey, cost: real, now: real): Tracker {
    if key in t.counters then t.(counters := t.counters[key := Credited(t.counters[key], cost, now)]) else t
  }

  /** The tracked keys of one account. */
  function AccountKeys(t: Tracker, apiKey: string): set<PairKey> {
    set k | k in t.counters && k.apiKey == apiKey
  }

  function ChargedAccount(t: Tracker, apiKey: string, cost: real, now: real): Tracker {
    t.(counters := map k | k in t.counters ::
         if k.apiKey == apiKey then Saturated(t.counters[k], cost, now) else t.counters[k])
  }

  /** Snapping one pair inserts it when it is not tracked, without evicting anything. */
  function SnappedPair(t: Tracker, l: Limits, key: PairKey, now: real): Tracker {
    var c := if key in t.counters then t.counters[key] else Fresh(l.cap, l.decayPerSec, now);
    Tracker(t.counters[key := Snapped(c, now)], Promote(t.order, key))
  }

  /** Snapping an account touches its tracked pairs only, promoting them in whatever order the map gives. */
  function SnappedAccount(t: Tracker, apiKey: string, promoted: seq<PairKey>, now: real): Tracker {
    Tracker(map k | k in t.counters ::
              if k.apiKey == apiKey then Snapped(t.counters[k], now) else t.counters[k],
            PromoteAll(t.order, promoted))
  }

  // ---------------------------------------------------------------- the invariant

  /** `s` lists exactly `keys`, each once. */
  ghost predicate Enumerates(s: seq<PairKey>, keys: set<PairKey>) {
    multiset(s) == multiset(keys)
  }

  lemma EnumeratesMeans(s: seq<PairKey>, keys: set<PairKey>)
    requires Enumerates(s, keys)
    ensures |s| == |keys|
    ensures forall k :: k in s <==> k in keys
    ensures forall i, j :: 0 <= i < j < |s| ==> s[i] != s[j]
  {
    assert forall k :: k in s <==> k in multiset(s);
    assert |multiset(s)| == |s| && |multiset(keys)| == |keys|;
    forall i, j | 0 <= i < j < |s|
      ensures s[i] != s[j]
    {
      assert s == s[..j] + [s[j]] + s[j + 1..];
      assert s[..j][i] == s[i];
      assert s[i] in multiset(s[..j]);
      assert multiset(s)[s[j]] == multiset(keys)[s[j]] <= 1;
    }
  }

  ghost predicate WellFormed(t: Tracker) {
    Enumerates(t.order, t.counters.Keys)
  }

  lemma {:induction false} FirstIsFound(order: seq<PairKey>, key: PairKey)
    ensures forall j :: 0 <= j < Find(order, key) ==> order[j] != key
    ensures Find(order, key) < |order| ==> order[Find(order, key)] == key
    ensures key in order <==> Find(order, key) < |order|
    decreases |order|
  {
    if order != [] && order[0] != key {
      FirstIsFound(order[1..], key);
      forall j | 0 <= j < Find(order, key)
        ensures order[j] != key
      {
        if j > 0 { assert order[j] == order[1..][j - 1]; }
      }
      assert order == [order[0]] + order[1..];
    }
  }

  lemma {:induction false} FirstOtherFinds(order: seq<PairKey>, key: PairKey)
    ensures forall j :: 0 <= j < FirstOther(order, key) ==> order[j] == key
    ensures FirstOther(order, key) < |order| ==> order[FirstOther(order, key)] != key
    decreases |order|
  {
    if order != [] && order[0] == key {
      FirstOtherFinds(order[1..], key);
      forall j | 0 <= j < FirstOther(order, key)
        ensures order[j] == key
      {
        if j > 0 { assert order[j] == order[1..][j - 1]; }
      }
    }
  }

  lemma DropEnumerates(order: seq<PairKey>, keys: set<PairKey>, i: nat)
    requires Enumerates(order, keys) && i < |order|
    ensures order[i] in keys
    ensures Enumerates(DropAt(order, i), keys - {order[i]})
  {
    var k := order[i];
    assert order == order[..i] + [k] + order[i + 1..];
    assert multiset(order) == multiset(DropAt(order, i)) + multiset{k};
    assert k in multiset(keys);
    assert multiset(DropAt(order, i)) == multiset(order) - multiset{k};
    assert multiset(keys - {k}) == multiset(keys) - multiset{k};
  }

  lemma AppendEnumerates(order: seq<PairKey>, keys: set<PairKey>, key: PairKey)
    requires Enumerates(order, keys) && key !in keys
    ensures Enumerates(order + [key], keys + {key})
  {
  }

  lemma PromoteEnumerates(order: seq<PairKey>, keys: set<PairKey>, key: PairKey)
    requires Enumerates(order, keys)
    ensures Enumerates(Promote(order, key), keys + {key})
  {
    FirstIsFound(order, key);
    EnumeratesMeans(order, keys);
    var i := Find(order, key);
    if i < |order| {
      DropEnumerates(order, keys, i);
      AppendEnumerates(DropAt(order, i), keys - {key}, key);
      assert keys - {key} + {key} == keys + {key};
    } else {
      AppendEnumerates(order, keys, key);
    }
  }

  /** Eviction takes the front of the order, which is not the key just put at the back. */
  lemma EvictedIsTheFront(t: Tracker, key: PairKey)
    requires WellFormed(t) && t.counters != map[] && key !in t.counters
    ensures t.order != [] && t.order[0] in t.counters
    ensures Evicted(Tracker(t.counters, t.order + [key]), key)
         == (Tracker(t.counters - {t.order[0]}, DropAt(t.order, 0) + [key]), Some(t.order[0]))
    ensures Enumerates(DropAt(t.order, 0) + [key], t.counters.Keys - {t.order[0]} + {key})
  {
    EnumeratesMeans(t.order, t.counters.Keys);
    assert |t.counters.Keys| == |t.counters|;
    assert t.order[0] in t.order;
    FirstOtherFinds(t.order + [key], key);
    assert (t.order + [key])[0] == t.order[0];
    assert DropAt(t.order + [key], 0) == DropAt(t.order, 0) + [key];
    DropEnumerates(t.order, t.counters.Keys, 0);
    AppendEnumerates(DropAt(t.order, 0), t.counters.Keys - {t.order[0]}, key);
  }

  lemma TouchTracked(t: Tracker, l: Limits, key: PairKey, now: real)
    requires WellFormed(t) && key in t.counters
    ensures Touched(t, l, key, now) == (t.(order := Promote(t.order, key)), None)
    ensures Enumerates(Promote(t.order, key), t.counters.Keys)
  {
    PromoteEnumerates(t.order, t.counters.Keys, key);
    assert t.counters.Keys + {key} == t.counters.Keys;
  }

  lemma TouchNew(t: Tracker, l: Limits, key: PairKey, now: real)
    requires WellFormed(t) && key !in t.counters && |t.counters| < l.lruCap
    ensures Touched(t, l, key, now) == (Tracker(t.counters[key := Fresh(l.cap, l.decayPerSec, now)], t.order + [key]), None)
    ensures Enumerates(t.order + [key], t.counters.Keys + {key})
  {
    FirstIsFound(t.order, key);
    EnumeratesMeans(t.order, t.counters.Keys);
    AppendEnumerates(t.order, t.counters.Keys, key);
  }

  lemma TouchFull(t: Tracker, l: Limits, key: PairKey, now: real)
    requires WellFormed(t) && key !in t.counters && |t.counters| >= l.lruCap >= 1
    ensures t.order != [] && t.order[0] in t.counters
    ensures Touched(t, l, key, now)
         == (Tracker((t.counters - {t.order[0]})[key := Fresh(l.cap, l.decayPerSec, now)], DropAt(t.order, 0) + [key]),
             Some(t.order[0]))
    ensures Enumerates(DropAt(t.order, 0) + [key], t.counters.Keys - {t.order[0]} + {key})
  {
    FirstIsFound(t.order, key);
    EnumeratesMeans(t.order, t.counters.Keys);
    EvictedIsTheFront(t, key);
  }

  /** Touching keeps the listing exact, and evicts the front exactly when a new key finds the map full. */
  lemma TouchedKeepsTheListing(t: Tracker, l: Limits, key: PairKey, now: real)
    requires WellFormed(t) && l.lruCap >= 1
    ensures var (after, evicted) := Touched(t, l, key, now);
            && WellFormed(after)
            && (evicted.Some? <==> key !in t.counters && |t.counters| >= l.lruCap)
            && (evicted.Some? ==> t.order != [] && evicted.value == t.order[0])
            && after.counters.Keys == (if evicted.Some? then t.counters.Keys - {evicted.value} else t.counters.Keys) + {key}
  {
    var after := Touched(t, l, key, now).0;
    if key in t.counters {
      TouchTracked(t, l, key, now);
      assert after.counters.Keys == t.counters.Keys + {key};
    } else if |t.counters| < l.lruCap {
      TouchNew(t, l, key, now);
      assert after.counters.Keys == t.counters.Keys + {key};
    } else {
      TouchFull(t, l, key, now);
      assert after.counters.Keys == t.counters.Keys - {t.order[0]} + {key};
    }
  }

  lemma PromotedGrows(promoted: seq<PairKey>, account: set<PairKey>, matching: set<PairKey>, key: PairKey)
    requires key in matching && matching <= account && Enumerates(promoted, account - matching)
    ensures Enumerates(promoted + [key], account - (matching - {key}))
  {
    AppendEnumerates(promoted, account - matching, key);
    assert account - (matching - {key}) == account - matching + {key};
  }

  lemma {:induction false} PromoteAllEnumerates(order: seq<PairKey>, keys: set<PairKey>, promoted: seq<PairKey>)
    requires Enumerates(order, keys) && forall k :: k in promoted ==> k in keys
    ensures Enumerates(PromoteAll(order, promoted), keys)
    decreases |promoted|
  {
    if promoted != [] {
      var init, last := promoted[..|promoted| - 1], promoted[|promoted| - 1];
      PromoteAllEnumerates(order, keys, init);
      PromoteEnumerates(PromoteAll(order, init), keys, last);
      assert keys + {last} == keys;
    }
  }

  // ---------------------------------------------------------------- the tracker

  class SpotTradingRateLimitTracker {
    const tier: Tier
    const lruCap: nat
    var counter: map<PairKey, Counter>
    var accessOrder: seq<PairKey>

    function View(): Tracker
      reads this
    {
      Tracker(counter, accessOrder)
    }

    function LimitsOf(): Limits {
      Limits(TradingCap(tier), TradingDecayPerSec(tier), lruCap)
    }

    ghost predicate Valid()
      reads this
    {
      lruCap >= 1 && WellFormed(View())
    }

    /** A cap of zero is raised to one. */
    constructor (tier: Tier, lruCap: nat)
      ensures Valid() && this.tier == tier && this.lruCap == (if lruCap >= 1 then lruCap else 1)
      ensures View() == Tracker(map[], [])
    {
      this.tier := tier;
      this.lruCap := if lruCap >= 1 then lruCap else 1;
      counter, accessOrder := map[], [];
    }

    /** Moves `key` to the back of the access order. */
    method PromoteKey(key: PairKey)
      modifies this`accessOrder
      ensures accessOrder == Promote(old(accessOrder), key)
    {
      var pos := 0;
      while pos < |accessOrder| && accessOrder[pos] != key
        invariant pos <= |accessOrder|
        invariant pos + Find(accessOrder[pos..], key) == Find(accessOrder, key)
      {
        assert accessOrder[pos..][1..] == accessOrder[pos + 1..];
        pos := pos + 1;
      }
      if pos < |accessOrder| {
        accessOrder := accessOrder[..pos] + accessOrder[pos + 1..];
      }
      accessOrder := accessOrder + [key];
    }

    method EvictOldest(key: PairKey) returns (evicted: Option<PairKey>)
      modifies this
      ensures (View(), evicted) == Evicted(old(View()), key)
    {
      var pos := 0;
      while pos < |accessOrder| && accessOrder[pos] == key
        invariant pos <= |accessOrder|
        invariant pos + FirstOther(accessOrder[pos..], key) == FirstOther(accessOrder, key)
      {
        assert accessOrder[pos..][1..] == accessOrder[pos + 1..];
        pos := pos + 1;
      }
      evicted := None;
      if pos < |accessOrder| {
        evicted := Some(accessOrder[pos]);
        counter := counter - {accessOrder[pos]};
        accessOrder := accessOrder[..pos] + accessOrder[pos + 1..];
      }
    }

    method TouchLru(key: PairKey, now: real) returns (evicted: Option<PairKey>)
      requires Valid()
      modifies this
      ensures Valid() && key in counter
      ensures (View(), evicted) == Touched(old(View()), LimitsOf(), key, now)
    {
      TouchedKeepsTheListing(View(), LimitsOf(), key, now);
      PromoteKey(key);
      evicted := None;
      if key !in counter {
        if |counter| >= lruCap {
          evicted := EvictOldest(key);
        }
        counter := counter[key := Fresh(TradingCap(tier), TradingDecayPerSec(tier), now)];
      }
    }

    /** Charges a pair; an account scope is misrouted and refused untouched. */
    method Consume(scope: Scope, cost: real, now: real) returns (verdict: Verdict, evicted: Option<PairKey>)
      requires Valid()
      modifies this
      ensures Valid()
      ensures scope.ApiKeyScope? ==> View() == old(View()) && verdict == Misrouted(now) && evicted == None
      ensures scope.PairScope? ==>
                var key := PairKey(scope.apiKey, scope.pair);
                && View() == Consumed(old(View()), LimitsOf(), key, cost, now)
                && verdict == ConsumeAnswer(old(View()), LimitsOf(), key, cost, now)
                && evicted == Touched(old(View()), LimitsOf(), key, now).1
    {
      if scope.ApiKeyScope? {
        return Misrouted(now), None;
      }
      var key := PairKey(scope.apiKey, scope.pair);
      TouchedKeepsTheListing(View(), LimitsOf(), key, now);
      evicted := TouchLru(key, now);
      var c := counter[key];
      counter := counter[key := Charged(c, cost, now)];
      verdict := Answer(c, cost, now);
    }

    method Credit(scope: Scope, cost: real, now: real)
      requires Valid()
      modifies this
      ensures Valid()
      ensures View() == if scope.ApiKeyScope? then old(View())
                        else CreditedPair(old(View()), PairKey(scope.apiKey, scope.pair), cost, now)
    {
      if scope.ApiKeyScope? {
        return;
      }
      var key := PairKey(scope.apiKey, scope.pair);
      if key in counter {
        counter := counter[key := Credited(counter[key], cost, now)];
        assert counter.Keys == old(counter).Keys;
      }
    }

    /** Charges every tracked pair of an account, never refusing and never promoting. */
    method ChargeAccountWide(scope: Scope, cost: real, now: real)
      requires Valid()
      modifies this
      ensures Valid()
      ensures View() == if scope.PairScope? then old(View()) else ChargedAccount(old(View()), scope.key, cost, now)
    {
      if scope.PairScope? {
        return;
      }
      var rest := counter.Keys;
      while rest != {}
        invariant rest <= counter.Keys == old(counter).Keys
        invariant forall k :: k in counter ==>
                    counter[k] == if k in rest || k.apiKey != scope.key then old(counter)[k]
                                  else Saturated(old(counter)[k], cost, now)
        invariant accessOrder == old(accessOrder)
        decreases rest
      {
        var k :| k in rest;
        if k.apiKey == scope.key {
          counter := counter[k := Saturated(counter[k], cost, now)];
        }
        rest := rest - {k};
      }
    }

    method SnapPairToCap(key: PairKey, now: real)
      requires Valid()
      modifies this
      ensures Valid()
      ensures View() == SnappedPair(old(View()), LimitsOf(), key, now)
    {
      PromoteEnumerates(accessOrder, counter.Keys, key);
      var c := if key in counter then counter[key] else Fresh(TradingCap(tier), TradingDecayPerSec(tier), now);
      counter := counter[key := Snapped(c, now)];
      PromoteKey(key);
      assert counter.Keys == old(counter).Keys + {key};
    }

    /** Snaps and promotes every tracked pair of an account; `promoted` is the order the map gave. */
    method SnapAccountToCap(apiKey: string, now: real) returns (ghost promoted: seq<PairKey>)
      requires Valid()
      modifies this
      ensures Valid()
      ensures Enumerates(promoted, AccountKeys(old(View()), apiKey))
      ensures View() == SnappedAccount(old(View()), apiKey, promoted, now)
    {
      var rest := counter.Keys;
      while rest != {}
        invariant rest <= counter.Keys == old(counter).Keys
        invariant forall k :: k in counter ==>
                    counter[k] == if k in rest || k.apiKey != apiKey then old(counter)[k]
                                  else Snapped(old(counter)[k], now)
        invariant accessOrder == old(accessOrder)
        decreases rest
      {
        var k :| k in rest;
        if k.apiKey == apiKey {
          counter := counter[k := Snapped(counter[k], now)];
        }
        rest := rest - {k};
      }
      promoted := PromoteAccount(apiKey);
    }

    method PromoteAccount(apiKey: string) returns (ghost promoted: seq<PairKey>)
      requires Valid()
      modifies this`accessOrder
      ensures Valid()
      ensures Enumerates(promoted, AccountKeys(View(), apiKey))
      ensures accessOrder == PromoteAll(old(accessOrder), promoted)
    {
      var matching := set k | k in counter && k.apiKey == apiKey;
      ghost var account := matching;
      promoted := [];
      while matching != {}
        invariant matching <= account
        invariant Enumerates(promoted, account - matching)
        invariant accessOrder == PromoteAll(old(accessOrder), promoted)
        decreases matching
      {
        var key :| key in matching;
        PromotedGrows(promoted, account, matching, key);
        assert (promoted + [key])[..|promoted|] == promoted;
        PromoteKey(key);
        promoted := promoted + [key];
        matching := matching - {key};
      }
      assert account - {} == account;
      EnumeratesMeans(promoted, account);
      PromoteAllEnumerates(old(accessOrder), counter.Keys, promoted);
    }

    method SnapToCap(scope: Scope, now: real) returns (ghost promoted: seq<PairKey>)
      requires Valid()
      modifies this
      ensures Valid()
      ensures scope.PairScope? ==> View() == SnappedPair(old(View()), LimitsOf(), PairKey(scope.apiKey, scope.pair), now)
      ensures scope.ApiKeyScope? ==>
                && Enumerates(promoted, AccountKeys(old(View()), scope.key))
                && View() == SnappedAccount(old(View()), scope.key, promoted, now)
    {
      promoted := [];
      match scope {
        case PairScope(apiKey, pair) => SnapPairToCap(PairKey(apiKey, pair), now);
        case ApiKeyScope(key) => promoted := SnapAccountToCap(key, now);
      }
    }
  }

  // ---------------------------------------------------------------- runs

  datatype Op =
    | Consume(key: PairKey, cost: real, now: real)
    | Credit(key: PairKey, cost: real, now: real)
    | ChargeAccount(apiKey: string, cost: real, now: real)
    | SnapPair(key: PairKey, now: real)
    | SnapAccount(apiKey: string, promoted: seq<PairKey>, now: real)

  function Step(t: Tracker, l: Limits, op: Op): Tracker {
    match op
    case Consume(key, cost, now) => Consumed(t, l, key, cost, now)
    case Credit(key, cost, now) => CreditedPair(t, key, cost, now)
    case ChargeAccount(apiKey, cost, now) => ChargedAccount(t, apiKey, cost, now)
    case SnapPair(key, now) => SnappedPair(t, l, key, now)
    case SnapAccount(apiKey, promoted, now) => SnappedAccount(t, apiKey, promoted, now)
  }

  function EvictedBy(t: Tracker, l: Limits, op: Op): set<PairKey> {
    if op.Consume? && Touched(t, l, op.key, op.now).1.Some? then {Touched(t, l, op.key, op.now).1.value} else {}
  }

  /** An account snap promotes each tracked pair of the account once, in any order. */
  ghost predicate Legal(t: Tracker, op: Op) {
    op.SnapAccount? ==> Enumerates(op.promoted, AccountKeys(t, op.apiKey))
  }

  function Run(l: Limits, ops: seq<Op>): Tracker {
    if ops == [] then Tracker(map[], []) else Step(Run(l, ops[..|ops| - 1]), l, ops[|ops| - 1])
  }

  ghost predicate LegalRun(l: Limits, ops: seq<Op>) {
    ops == [] || (LegalRun(l, ops[..|ops| - 1]) && Legal(Run(l, ops[..|ops| - 1]), ops[|ops| - 1]))
  }

  function Evictions(l: Limits, ops: seq<Op>): set<PairKey> {
    if ops == [] then {}
    else Evictions(l, ops[..|ops| - 1]) + EvictedBy(Run(l, ops[..|ops| - 1]), l, ops[|ops| - 1])
  }

  /** How often a pair that was not tracked was snapped. */
  function NewSnaps(l: Limits, ops: seq<Op>): nat {
    if ops == [] then 0
    else
      var last := ops[|ops| - 1];
      NewSnaps(l, ops[..|ops| - 1])
      + if last.SnapPair? && last.key !in Run(l, ops[..|ops| - 1]).counters then 1 else 0
  }

  lemma ConsumedKeys(t: Tracker, l: Limits, key: PairKey, cost: real, now: real)
    requires WellFormed(t) && l.lruCap >= 1
    ensures WellFormed(Consumed(t, l, key, cost, now))
    ensures Consumed(t, l, key, cost, now).order == Touched(t, l, key, now).0.order
    ensures Consumed(t, l, key, cost, now).counters.Keys == Touched(t, l, key, now).0.counters.Keys
  {
    TouchedKeepsTheListing(t, l, key, now);
    var touched := Touched(t, l, key, now).0;
    assert touched.counters.Keys + {key} == touched.counters.Keys;
  }

  lemma StepKeepsTheListing(t: Tracker, l: Limits, op: Op)
    requires WellFormed(t) && l.lruCap >= 1 && Legal(t, op)
    ensures WellFormed(Step(t, l, op))
  {
    match op
    case Consume(key, cost, now) => ConsumedKeys(t, l, key, cost, now);
    case Credit(key, cost, now) => assert CreditedPair(t, key, cost, now).counters.Keys == t.counters.Keys;
    case ChargeAccount(apiKey, cost, now) => assert ChargedAccount(t, apiKey, cost, now).counters.Keys == t.counters.Keys;
    case SnapPair(key, now) => SnappedPairKeys(t, l, key, now);
    case SnapAccount(apiKey, promoted, now) => SnappedAccountKeys(t, apiKey, promoted, now);
  }

  lemma SnappedPairKeys(t: Tracker, l: Limits, key: PairKey, now: real)
    requires WellFormed(t)
    ensures WellFormed(SnappedPair(t, l, key, now))
  {
    PromoteEnumerates(t.order, t.counters.Keys, key);
    assert SnappedPair(t, l, key, now).counters.Keys == t.counters.Keys + {key};
  }

  lemma SnappedAccountKeys(t: Tracker, apiKey: string, promoted: seq<PairKey>, now: real)
    requires WellFormed(t) && Enumerates(promoted, AccountKeys(t, apiKey))
    ensures WellFormed(SnappedAccount(t, apiKey, promoted, now))
  {
    EnumeratesMeans(promoted, AccountKeys(t, apiKey));
    PromoteAllEnumerates(t.order, t.counters.Keys, promoted);
    assert SnappedAccount(t, apiKey, promoted, now).counters.Keys == t.counters.Keys;
  }

  /** Over every run the access order is a duplicate-free listing of exactly the tracked keys. */
  lemma {:induction false} OrderListsTheTracked(l: Limits, ops: seq<Op>)
    requires l.lruCap >= 1 && LegalRun(l, ops)
    ensures WellFormed(Run(l, ops))
    decreases |ops|
  {
    if ops != [] {
      OrderListsTheTracked(l, ops[..|ops| - 1]);
      StepKeepsTheListing(Run(l, ops[..|ops| - 1]), l, ops[|ops| - 1]);
    }
  }

  /** A charge leaves the size alone, but that a new key in a map with room adds one. */
  lemma ConsumeSize(t: Tracker, l: Limits, key: PairKey, cost: real, now: real)
    requires WellFormed(t) && l.lruCap >= 1
    ensures |Consumed(t, l, key, cost, now).counters|
         == |t.counters| + if key !in t.counters && |t.counters| < l.lruCap then 1 else 0
  {
    ConsumedKeys(t, l, key, cost, now);
    TouchedKeepsTheListing(t, l, key, now);
    var before, after := t.counters.Keys, Consumed(t, l, key, cost, now).counters.Keys;
    assert |before| == |t.counters| && |after| == |Consumed(t, l, key, cost, now).counters|;
    if key in t.counters {
      assert after == before;
    } else if |t.counters| < l.lruCap {
      assert after == before + {key};
    } else {
      EnumeratesMeans(t.order, before);
      assert t.order[0] in t.order;
      assert after == before - {t.order[0]} + {key};
    }
  }

  lemma SnapSize(t: Tracker, l: Limits, key: PairKey, now: real)
    ensures |SnappedPair(t, l, key, now).counters| == |t.counters| + if key in t.counters then 0 else 1
  {
    var after := SnappedPair(t, l, key, now).counters;
    assert after.Keys == t.counters.Keys + {key};
    assert |after.Keys| == |after| && |t.counters.Keys| == |t.counters|;
  }

  lemma SameKeysSameSize(a: map<PairKey, Counter>, b: map<PairKey, Counter>)
    requires a.Keys == b.Keys
    ensures |a| == |b|
  {
    assert |a| == |a.Keys| && |b| == |b.Keys|;
  }

  /** What an operation adds to the size: a new key that finds room, or any new key that is snapped. */
  function Growth(t: Tracker, l: Limits, op: Op): nat {
    match op
    case Consume(key, _, _) => if key !in t.counters && |t.counters| < l.lruCap then 1 else 0
    case SnapPair(key, _) => if key !in t.counters then 1 else 0
    case _ => 0
  }

  lemma StepSize(t: Tracker, l: Limits, op: Op)
    requires WellFormed(t) && l.lruCap >= 1
    ensures |Step(t, l, op).counters| == |t.counters| + Growth(t, l, op)
  {
    match op
    case Consume(key, cost, now) => ConsumeSize(t, l, key, cost, now);
    case Credit(key, cost, now) => SameKeysSameSize(CreditedPair(t, key, cost, now).counters, t.counters);
    case ChargeAccount(apiKey, cost, now) => SameKeysSameSize(ChargedAccount(t, apiKey, cost, now).counters, t.counters);
    case SnapPair(key, now) => SnapSize(t, l, key, now);
    case SnapAccount(apiKey, promoted, now) =>
      SameKeysSameSize(SnappedAccount(t, apiKey, promoted, now).counters, t.counters);
  }

  /** Over every run the map holds at most the cap, plus one for each snap of an untracked pair. */
  lemma {:induction false} SizeIsBounded(l: Limits, ops: seq<Op>)
    requires l.lruCap >= 1 && LegalRun(l, ops)
    ensures |Run(l, ops).counters| <= l.lruCap + NewSnaps(l, ops)
    decreases |ops|
  {
    if ops != [] {
      var init := ops[..|ops| - 1];
      SizeIsBounded(l, init);
      OrderListsTheTracked(l, init);
      StepSize(Run(l, init), l, ops[|ops| - 1]);
    }
  }

  /** The one way past the cap: snapping an untracked pair while the map is full. */
  predicate FullSnap(t: Tracker, l: Limits, op: Op) {
    op.SnapPair? && op.key !in t.counters && |t.counters| >= l.lruCap
  }

  predicate NoFullSnap(l: Limits, ops: seq<Op>) {
    ops == [] || (NoFullSnap(l, ops[..|ops| - 1]) && !FullSnap(Run(l, ops[..|ops| - 1]), l, ops[|ops| - 1]))
  }

  /**
   * When the cap holds, over every run: exactly when no untracked pair was ever snapped while the map was
   * full.  Nothing shrinks the map, so once past the cap it stays past it.
   */
  lemma {:induction false} SizeStaysWithinTheCap(l: Limits, ops: seq<Op>)
    requires l.lruCap >= 1 && LegalRun(l, ops)
    ensures |Run(l, ops).counters| <= l.lruCap <==> NoFullSnap(l, ops)
    decreases |ops|
  {
    if ops != [] {
      var init := ops[..|ops| - 1];
      SizeStaysWithinTheCap(l, init);
      OrderListsTheTracked(l, init);
      StepSize(Run(l, init), l, ops[|ops| - 1]);
    }
  }

  /** The account's pairs with names of 0 to n - 1 letters, snapped one after the other. */
  function SnapsOf(apiKey: string, n: nat, now: real): seq<Op> {
    if n == 0 then [] else SnapsOf(apiKey, n - 1, now) + [SnapPair(PairKey(apiKey, seq(n - 1, _ => 'x')), now)]
  }

  lemma {:induction false} SnapsGrow(l: Limits, apiKey: string, n: nat, now: real)
    requires l.lruCap >= 1
    ensures LegalRun(l, SnapsOf(apiKey, n, now)) && |Run(l, SnapsOf(apiKey, n, now)).counters| == n
    ensures forall k :: k in Run(l, SnapsOf(apiKey, n, now)).counters ==> |k.pair| < n
  {
    if n > 0 {
      var init, op := SnapsOf(apiKey, n - 1, now), SnapPair(PairKey(apiKey, seq(n - 1, _ => 'x')), now);
      assert (init + [op])[..|init + [op]| - 1] == init;
      SnapsGrow(l, apiKey, n - 1, now);
      SnapSize(Run(l, init), l, op.key, now);
    }
  }

  /** Whatever the cap, there is a run past it. */
  lemma CapIsExceeded(l: Limits, apiKey: string, now: real)
    requires l.lruCap >= 1
    ensures exists ops :: LegalRun(l, ops) && |Run(l, ops).counters| > l.lruCap
  {
    SnapsGrow(l, apiKey, l.lruCap + 1, now);
  }

  // ---------------------------------------------------------------- who is evicted

  /** The keys an operation charges or snaps by name or account, in the order they are promoted. */
  function Touches(op: Op): seq<PairKey> {
    match op
    case Consume(key, _, _) => [key]
    case SnapPair(key, _) => [key]
    case SnapAccount(_, promoted, _) => promoted
    case _ => []
  }

  function History(ops: seq<Op>): seq<PairKey> {
    if ops == [] then [] else History(ops[..|ops| - 1]) + Touches(ops[|ops| - 1])
  }

  /** When `k` was last touched; -1 if never. */
  function LastTouch(history: seq<PairKey>, k: PairKey): int {
    if history == [] then -1
    else if history[|history| - 1] == k then |history| - 1
    else LastTouch(history[..|history| - 1], k)
  }

  lemma {:induction false} LastTouchBound(history: seq<PairKey>, k: PairKey)
    ensures -1 <= LastTouch(history, k) < |history|
    decreases |history|
  {
    if history != [] { LastTouchBound(history[..|history| - 1], k); }
  }

  ghost predicate ByRecency(order: seq<PairKey>, history: seq<PairKey>) {
    forall i, j :: 0 <= i < j < |order| ==> LastTouch(history, order[i]) < LastTouch(history, order[j])
  }

  lemma DropByRecency(order: seq<PairKey>, history: seq<PairKey>, i: nat)
    requires ByRecency(order, history)
    ensures ByRecency(DropAt(order, i), history)
  {
  }

  lemma TouchByRecency(order: seq<PairKey>, history: seq<PairKey>, key: PairKey)
    requires ByRecency(order, history) && key !in order
    ensures ByRecency(order + [key], history + [key])
  {
    var later := history + [key];
    assert later[..|later| - 1] == history;
    forall i | 0 <= i < |order|
      ensures LastTouch(later, order[i]) == LastTouch(history, order[i]) < |history|
    {
      assert order[i] in order;
      LastTouchBound(history, order[i]);
    }
  }

  lemma PromoteByRecency(order: seq<PairKey>, keys: set<PairKey>, history: seq<PairKey>, key: PairKey)
    requires Enumerates(order, keys) && ByRecency(order, history)
    ensures ByRecency(Promote(order, key), history + [key])
  {
    FirstIsFound(order, key);
    var i := Find(order, key);
    if i < |order| {
      DropEnumerates(order, keys, i);
      EnumeratesMeans(DropAt(order, i), keys - {key});
    }
    DropByRecency(order, history, i);
    TouchByRecency(DropAt(order, i), history, key);
  }

  lemma {:induction false} PromoteAllByRecency(order: seq<PairKey>, keys: set<PairKey>, history: seq<PairKey>, promoted: seq<PairKey>)
    requires Enumerates(order, keys) && ByRecency(order, history)
    requires forall k :: k in promoted ==> k in keys
    ensures ByRecency(PromoteAll(order, promoted), history + promoted)
    decreases |promoted|
  {
    if promoted == [] {
      assert history + promoted == history;
    } else {
      var init, last := promoted[..|promoted| - 1], promoted[|promoted| - 1];
      assert history + promoted == history + init + [last];
      assert forall k :: k in init ==> k in promoted;
      assert ByRecency(PromoteAll(order, init), history + init) by {
        PromoteAllByRecency(order, keys, history, init);
      }
      assert Enumerates(PromoteAll(order, init), keys) by {
        PromoteAllEnumerates(order, keys, init);
      }
      PromoteByRecency(PromoteAll(order, init), keys, history + init, last);
    }
  }

  lemma ConsumeByRecency(t: Tracker, l: Limits, history: seq<PairKey>, key: PairKey, now: real)
    requires WellFormed(t) && l.lruCap >= 1 && ByRecency(t.order, history)
    ensures ByRecency(Touched(t, l, key, now).0.order, history + [key])
  {
    if key in t.counters {
      TouchTracked(t, l, key, now);
      PromoteByRecency(t.order, t.counters.Keys, history, key);
    } else {
      EnumeratesMeans(t.order, t.counters.Keys);
      if |t.counters| < l.lruCap {
        TouchNew(t, l, key, now);
        TouchByRecency(t.order, history, key);
      } else {
        TouchFull(t, l, key, now);
        DropEnumerates(t.order, t.counters.Keys, 0);
        EnumeratesMeans(DropAt(t.order, 0), t.counters.Keys - {t.order[0]});
        DropByRecency(t.order, history, 0);
        TouchByRecency(DropAt(t.order, 0), history, key);
      }
    }
  }

  lemma StepByRecency(t: Tracker, l: Limits, history: seq<PairKey>, op: Op)
    requires WellFormed(t) && l.lruCap >= 1 && Legal(t, op) && ByRecency(t.order, history)
    ensures ByRecency(Step(t, l, op).order, history + Touches(op))
  {
    assert history + [] == history;
    match op
    case Consume(key, cost, now) =>
      ConsumedKeys(t, l, key, cost, now);
      ConsumeByRecency(t, l, history, key, now);
    case Credit(key, cost, now) =>
    case ChargeAccount(apiKey, cost, now) =>
    case SnapPair(key, now) => PromoteByRecency(t.order, t.counters.Keys, history, key);
    case SnapAccount(apiKey, promoted, now) =>
      EnumeratesMeans(promoted, AccountKeys(t, apiKey));
      PromoteAllByRecency(t.order, t.counters.Keys, history, promoted);
  }

  lemma {:induction false} RunByRecency(l: Limits, ops: seq<Op>)
    requires l.lruCap >= 1 && LegalRun(l, ops)
    ensures ByRecency(Run(l, ops).order, History(ops))
    decreases |ops|
  {
    if ops != [] {
      var init := ops[..|ops| - 1];
      RunByRecency(l, init);
      OrderListsTheTracked(l, init);
      StepByRecency(Run(l, init), l, History(init), ops[|ops| - 1]);
    }
  }

  /** Whenever a charge evicts, it evicts the tracked key charged or snapped longest ago. */
  lemma LeastRecentIsEvicted(l: Limits, ops: seq<Op>, key: PairKey, now: real, k: PairKey)
    requires l.lruCap >= 1 && LegalRun(l, ops)
    requires Touched(Run(l, ops), l, key, now).1.Some?
    ensures var gone := Touched(Run(l, ops), l, key, now).1.value;
            && gone in Run(l, ops).counters && gone != key
            && (k in Run(l, ops).counters && k != gone ==> LastTouch(History(ops), gone) < LastTouch(History(ops), k))
  {
    OrderListsTheTracked(l, ops);
    RunByRecency(l, ops);
    var t := Run(l, ops);
    TouchedKeepsTheListing(t, l, key, now);
    EnumeratesMeans(t.order, t.counters.Keys);
    assert t.order[0] in t.order;
    if k in t.counters && k != t.order[0] {
      assert k in t.order;
      var j :| 0 <= j < |t.order| && t.order[j] == k;
    }
  }

  lemma {:induction false} TouchedByPromotion(history: seq<PairKey>, promoted: seq<PairKey>, k: PairKey)
    ensures if k in promoted then LastTouch(history + promoted, k) >= |history|
            else LastTouch(history + promoted, k) == LastTouch(history, k) < |history|
    decreases |promoted|
  {
    if promoted == [] {
      assert history + promoted == history;
      LastTouchBound(history, k);
    } else {
      var init, last := promoted[..|promoted| - 1], promoted[|promoted| - 1];
      assert (history + promoted)[..|history + promoted| - 1] == history + init;
      assert promoted == init + [last];
      TouchedByPromotion(history, init, k);
    }
  }

  /** Snapping an account makes each pair tracked for it more recent than every pair of another account. */
  lemma AccountSnapIsRecent(l: Limits, ops: seq<Op>, apiKey: string, promoted: seq<PairKey>, now: real, mine: PairKey, other: PairKey)
    requires l.lruCap >= 1 && LegalRun(l, ops) && Legal(Run(l, ops), SnapAccount(apiKey, promoted, now))
    requires mine in Run(l, ops).counters && mine.apiKey == apiKey && other.apiKey != apiKey
    ensures LastTouch(History(ops + [SnapAccount(apiKey, promoted, now)]), other)
          < LastTouch(History(ops + [SnapAccount(apiKey, promoted, now)]), mine)
  {
    var more := ops + [SnapAccount(apiKey, promoted, now)];
    assert more[..|more| - 1] == ops;
    EnumeratesMeans(promoted, AccountKeys(Run(l, ops), apiKey));
    TouchedByPromotion(History(ops), promoted, mine);
    TouchedByPromotion(History(ops), promoted, other);
  }

  // ---------------------------------------------------------------- agreement with an unbounded map

  type Unbounded = map<PairKey, Counter>

  function CounterAt(u: Unbounded, l: Limits, key: PairKey, now: real): Counter {
    if key in u then u[key] else Fresh(l.cap, l.decayPerSec, now)
  }

  /** The same operation on a map that never evicts. */
  function UnboundedStep(u: Unbounded, l: Limits, op: Op): Unbounded {
    match op
    case Consume(key, cost, now) => u[key := Charged(CounterAt(u, l, key, now), cost, now)]
    case Credit(key, cost, now) => if key in u then u[key := Credited(u[key], cost, now)] else u
    case ChargeAccount(apiKey, cost, now) =>
      map k | k in u :: if k.apiKey == apiKey then Saturated(u[k], cost, now) else u[k]
    case SnapPair(key, now) => u[key := Snapped(CounterAt(u, l, key, now), now)]
    case SnapAccount(apiKey, _, now) =>
      map k | k in u :: if k.apiKey == apiKey then Snapped(u[k], now) else u[k]
  }

  function UnboundedRun(l: Limits, ops: seq<Op>): Unbounded {
    if ops == [] then map[] else UnboundedStep(UnboundedRun(l, ops[..|ops| - 1]), l, ops[|ops| - 1])
  }

  ghost predicate AgreeAt(t: Tracker, u: Unbounded, k: PairKey) {
    (k in t.counters <==> k in u) && (k in u ==> t.counters[k] == u[k])
  }

  lemma ConsumeAgrees(t: Tracker, u: Unbounded, l: Limits, op: Op, k: PairKey)
    requires WellFormed(t) && l.lruCap >= 1 && op.Consume? && AgreeAt(t, u, k) && k !in EvictedBy(t, l, op)
    ensures AgreeAt(Step(t, l, op), UnboundedStep(u, l, op), k)
  {
    if op.key in t.counters {
      TouchTracked(t, l, op.key, op.now);
    } else if |t.counters| < l.lruCap {
      TouchNew(t, l, op.key, op.now);
    } else {
      TouchFull(t, l, op.key, op.now);
    }
  }

  lemma StepAgrees(t: Tracker, u: Unbounded, l: Limits, op: Op, k: PairKey)
    requires WellFormed(t) && l.lruCap >= 1 && AgreeAt(t, u, k) && k !in EvictedBy(t, l, op)
    ensures AgreeAt(Step(t, l, op), UnboundedStep(u, l, op), k)
  {
    if op.Consume? { ConsumeAgrees(t, u, l, op, k); }
  }

  /**
   * A key never evicted has, after every run, the counter it would have in a tracker that never evicts,
   * and a charge to it is answered the same.
   */
  lemma {:induction false} NeverEvictedIsUnaffected(l: Limits, ops: seq<Op>, k: PairKey, cost: real, now: real)
    requires l.lruCap >= 1 && LegalRun(l, ops) && k !in Evictions(l, ops)
    ensures AgreeAt(Run(l, ops), UnboundedRun(l, ops), k)
    ensures ConsumeAnswer(Run(l, ops), l, k, cost, now) == Answer(CounterAt(UnboundedRun(l, ops), l, k, now), cost, now)
    decreases |ops|
  {
    if ops != [] {
      var init := ops[..|ops| - 1];
      NeverEvictedIsUnaffected(l, init, k, cost, now);
      OrderListsTheTracked(l, init);
      StepAgrees(Run(l, init), UnboundedRun(l, init), l, ops[|ops| - 1], k);
    }
  }

  // ---------------------------------------------------------------- what a charge answers

  /** The limits are a tier's. */
  predicate TierLimits(l: Limits, tier: Tier) {
    l.cap == TradingCap(tier) && l.decayPerSec == TradingDecayPerSec(tier) && l.lruCap >= 1
  }

  ghost predicate WithinLimits(t: Tracker, l: Limits) {
    forall k :: k in t.counters ==>
      Sound(t.counters[k]) && t.counters[k].cap == l.cap && t.counters[k].decayPerSec == l.decayPerSec
  }

  /** The counter a charge to `key` meets. */
  function MetBy(t: Tracker, l: Limits, key: PairKey, now: real): Counter {
    if key in t.counters then t.counters[key] else Fresh(l.cap, l.decayPerSec, now)
  }

  /** Whatever is evicted, the charged pair keeps its counter, and the charge is on it. */
  lemma ConsumedCounter(t: Tracker, l: Limits, key: PairKey, cost: real, now: real)
    requires WellFormed(t) && l.lruCap >= 1
    ensures var after := Consumed(t, l, key, cost, now);
            && key in after.counters && after.counters[key] == Charged(MetBy(t, l, key, now), cost, now)
            && (forall k :: k in after.counters && k != key ==> k in t.counters && after.counters[k] == t.counters[k])
  {
    if key in t.counters {
      TouchTracked(t, l, key, now);
    } else if |t.counters| < l.lruCap {
      TouchNew(t, l, key, now);
    } else {
      TouchFull(t, l, key, now);
    }
  }

  predicate CostsSomething(op: Op) {
    match op
    case Consume(_, cost, _) => cost >= 0.0
    case Credit(_, cost, _) => cost >= 0.0
    case ChargeAccount(_, cost, _) => cost >= 0.0
    case _ => true
  }

  lemma CounterStepsSound(c: Counter, cost: real, now: real)
    requires Sound(c) && cost >= 0.0
    ensures forall d :: d in {Charged(c, cost, now), Credited(c, cost, now), Saturated(c, cost, now), Snapped(c, now)} ==>
              Sound(d) && d.cap == c.cap && d.decayPerSec == c.decayPerSec
  {
    StepIsMetered(c, RateCounter.Charge(cost, now));
    StepIsMetered(c, RateCounter.Credit(cost, now));
    StepIsMetered(c, RateCounter.Saturate(cost, now));
    StepIsMetered(c, RateCounter.Snap(now));
  }

  lemma StepKeepsLimits(t: Tracker, l: Limits, tier: Tier, op: Op)
    requires WellFormed(t) && WithinLimits(t, l) && TierLimits(l, tier) && CostsSomething(op)
    ensures WithinLimits(Step(t, l, op), l)
  {
    var after := Step(t, l, op);
    forall k | k in after.counters
      ensures Sound(after.counters[k]) && after.counters[k].cap == l.cap && after.counters[k].decayPerSec == l.decayPerSec
    {
      var met := MetBy(t, l, k, op.now);
      var cost := if op.Consume? || op.Credit? || op.ChargeAccount? then op.cost else 0.0;
      CounterStepsSound(met, cost, op.now);
      if op.Consume? { ConsumedCounter(t, l, op.key, op.cost, op.now); }
    }
  }

  /** Over every run each counter stays within its tier's cap and decays at its tier's rate. */
  lemma {:induction false} RunWithinLimits(l: Limits, tier: Tier, ops: seq<Op>)
    requires TierLimits(l, tier) && LegalRun(l, ops) && forall i :: 0 <= i < |ops| ==> CostsSomething(ops[i])
    ensures WithinLimits(Run(l, ops), l)
    decreases |ops|
  {
    if ops != [] {
      var init := ops[..|ops| - 1];
      RunWithinLimits(l, tier, init);
      OrderListsTheTracked(l, init);
      StepKeepsLimits(Run(l, init), l, tier, ops[|ops| - 1]);
    }
  }

  /**
   * A refused charge: the answer is the level and the cap of the counter left, and a unit charge at the retry
   * instant it gives is accepted exactly when the clock was in order or a unit had room anyway; in order and
   * with no room, it is refused at every earlier instant.
   */
  lemma RefusalIsHonest(t: Tracker, l: Limits, tier: Tier, key: PairKey, cost: real, now: real, u: real)
    requires WellFormed(t) && WithinLimits(t, l) && TierLimits(l, tier)
    requires ConsumeAnswer(t, l, key, cost, now).Exceeded?
    ensures var after, answer := Consumed(t, l, key, cost, now), ConsumeAnswer(t, l, key, cost, now);
            var inOrder := key in t.counters ==> t.counters[key].lastUpdated <= now;
            && key in after.counters && answer.current == after.counters[key].current
            && answer.cap == after.counters[key].cap
            && (ConsumeAnswer(after, l, key, 1.0, answer.retryAt).Accepted? <==> inOrder || answer.current <= answer.cap - 1.0)
            && (inOrder && answer.current > answer.cap - 1.0 && now <= u < answer.retryAt ==>
                  ConsumeAnswer(after, l, key, 1.0, u).Exceeded?)
  {
    ConsumedCounter(t, l, key, cost, now);
    AnswerIsHonest(MetBy(t, l, key, now), tier, cost, now, u);
  }

  /** After a snap of a pair, with nothing charged since, only what has decayed can be charged to it. */
  lemma SnapExhaustsThePair(t: Tracker, l: Limits, tier: Tier, key: PairKey, cost: real, now: real, u: real)
    requires WithinLimits(t, l) && TierLimits(l, tier) && u >= Max(now, MetBy(t, l, key, now).lastUpdated)
    ensures ConsumeAnswer(SnappedPair(t, l, key, now), l, key, cost, u).Accepted?
            <==> cost <= l.cap && cost <= Decay(l.decayPerSec, u - Max(now, MetBy(t, l, key, now).lastUpdated))
  {
    SnapLeavesTheDecay(MetBy(t, l, key, now), cost, now, u);
  }

  /** After a snap of an account the same holds of every pair tracked for it, and no other pair is touched. */
  lemma SnapExhaustsTheAccount(t: Tracker, l: Limits, tier: Tier, apiKey: string, promoted: seq<PairKey>,
                               key: PairKey, cost: real, now: real, u: real)
    requires WithinLimits(t, l) && TierLimits(l, tier) && key in t.counters && u >= Max(now, t.counters[key].lastUpdated)
    ensures var after := SnappedAccount(t, apiKey, promoted, now);
            && (key.apiKey == apiKey ==>
                  (ConsumeAnswer(after, l, key, cost, u).Accepted?
                   <==> cost <= l.cap && cost <= Decay(l.decayPerSec, u - Max(now, t.counters[key].lastUpdated))))
            && (key.apiKey != apiKey ==> ConsumeAnswer(after, l, key, cost, u) == ConsumeAnswer(t, l, key, cost, u))
  {
    SnapLeavesTheDecay(t.counters[key], cost, now, u);
  }

  /** An account-wide charge is, pair by pair of the account, a charge where it fits and a snap where it does not. */
  lemma AccountChargeIsPairByPair(t: Tracker, apiKey: string, cost: real, now: real, key: PairKey)
    requires key in t.counters
    ensures var after, c := ChargedAccount(t, apiKey, cost, now), t.counters[key];
            && after.order == t.order && after.counters.Keys == t.counters.Keys
            && after.counters[key] == if key.apiKey != apiKey then c
                                      else if Fits(c, cost, now) then Charged(c, cost, now)
                                      else Snapped(c, now)
  {
    SaturatingIsChargeOrSnap(t.counters[key], cost, now);
  }

  /** Refunding an accepted charge at once leaves the pair's later answers as if it had not been made. */
  lemma RefundUndoesCharge(t: Tracker, l: Limits, tier: Tier, key: PairKey, cost: real, now: real, x: real, u: real)
    requires WellFormed(t) && WithinLimits(t, l) && TierLimits(l, tier) && cost >= 0.0
    requires ConsumeAnswer(t, l, key, cost, now).Accepted? && u >= Max(now, MetBy(t, l, key, now).lastUpdated)
    ensures ConsumeAnswer(CreditedPair(Consumed(t, l, key, cost, now), key, cost, now), l, key, x, u).Accepted?
            <==> Answer(MetBy(t, l, key, now), x, u).Accepted?
  {
    ConsumedCounter(t, l, key, cost, now);
    CreditUndoesCharge(MetBy(t, l, key, now), cost, now, u);
  }
}
