/**
 * What the simulation buys: when a key may go, what the wire gates see, that the mirror agrees, that dead
 * lifetimes cannot be felt, and that the epoch tells every liveness change.
 */
module RegistrySafety {
  import opened Util
  import opened Registry
  import opened RegistryLedger

  predicate Forced(op: Op) {
    op.ForceOut? || op.ForceOutAll?
  }

  /** What forced removals take: one key, one channel's keys with or without a pair, or every key. */
  lemma ForcedRemovals(s: Reg, k: Key, channel: Channel, j: Key)
    ensures j in Step(s, ForceOut(k)).entries <==> j in s.entries && j != k
    ensures j in Step(s, ForceOutAll(Some(channel))).entries <==> j in s.entries && j.channel != channel
    ensures Step(s, ForceOutAll(None)).entries == map[]
    ensures j in Step(s, ForceOutAll(Some(channel))).entries ==> Step(s, ForceOutAll(Some(channel))).entries[j] == s.entries[j]
  {
  }

  // ---------------------------------------------------------------- teardown

  lemma SettledKeepsHolds(kl: KeyLedger, guards: nat)
    ensures var after := Settled(kl, guards);
            && after.lifetime == kl.lifetime && after.holds == kl.holds
            && after.foreign == kl.foreign && after.absorbed == kl.absorbed
            && (!kl.phase.Absent? && after.phase.Absent? ==> kl.slots == 0 && guards == 0)
  {
  }

  /** A release that lets the lifetime end leaves exactly the holders it was short of. */
  lemma ReleasedToTheLast(e: Entry, kl: KeyLedger, guards: nat, tag: Option<nat>)
    requires EntryMatches(e, kl, guards) && (tag.Some? ==> tag.value in kl.holds)
    requires Released(kl, tag, guards).phase.Absent?
    ensures var after := Released(kl, tag, guards);
            && guards == 0 && after.lifetime == kl.lifetime
            && after.holds[after.lifetime] + after.absorbed == after.foreign
  {
    SettledKeepsHolds(SlotTaken(kl, tag), guards);
  }

  /** How a lifetime ends by itself: no guard is left, and the holders missing are those whose slots others took. */
  ghost predicate EndsShort(l: Ledger, l': Ledger, k: Key) {
    var kl := At(l', k);
    && kl.lifetime == At(l, k).lifetime && CurrentGuards(l', k) == {}
    && kl.holds[kl.lifetime] + kl.absorbed == kl.foreign
  }

  lemma ReleaseTeardown(l: Ledger, k: Key, tag: Option<nat>, e: Entry)
    requires Protocol(l, ReleaseBare(k, tag)) && EntryMatches(e, At(l, k), |CurrentGuards(l, k)|)
    requires At(LStep(l, ReleaseBare(k, tag)), k).phase.Absent?
    ensures EndsShort(l, LStep(l, ReleaseBare(k, tag)), k)
  {
    var l' := LStep(l, ReleaseBare(k, tag));
    ReleasedToTheLast(e, At(l, k), |CurrentGuards(l, k)|, tag);
    assert CurrentGuards(l', k) == CurrentGuards(l, k);
  }

  lemma DropTeardown(l: Ledger, g: GuardRef, e: Entry)
    requires g in l.guards && EntryMatches(e, At(l, g.key), |CurrentGuards(l, g.key)|)
    requires At(LStep(l, DropGuard(g)), g.key).phase.Absent?
    ensures EndsShort(l, LStep(l, DropGuard(g)), g.key)
  {
    var kl := At(l, g.key);
    GuardLeaves(l.guards, g, kl.lifetime);
    SettledKeepsHolds(kl, |GuardsAt(l.guards - {g}, g.key, kl.lifetime)|);
    assert LStep(l, DropGuard(g)).guards == l.guards - {g};
  }

  lemma LedgerTeardown(l: Ledger, op: Op, k: Key, e: Entry)
    requires Protocol(l, op) && !Forced(op) && EntryMatches(e, At(l, k), |CurrentGuards(l, k)|)
    requires At(LStep(l, op), k).phase.Absent?
    ensures EndsShort(l, LStep(l, op), k)
  {
    match op
    case ReleaseBare(j, tag) => if j == k { ReleaseTeardown(l, k, tag, e); }
    case DropGuard(g) => if g.key == k { DropTeardown(l, g, e); }
    case _ =>
  }

  /**
   * A key goes by itself only when no guard of its lifetime is left.  A bare hold of that lifetime is then
   * still outstanding exactly when stray or other-lifetime releases took more slots than its own holders'
   * releases left untaken.
   */
  lemma StepTeardown(s: Reg, l: Ledger, op: Op, k: Key)
    requires Matches(s, l) && Protocol(l, op) && !Forced(op)
    requires k in s.entries && k !in Step(s, op).entries
    ensures EndsShort(l, LStep(l, op), k)
  {
    assert EntryMatches(s.entries[k], At(l, k), |CurrentGuards(l, k)|) by { assert KeyMatches(s, l, k); }
    assert At(LStep(l, op), k).phase.Absent? by {
      StepMatches(s, l, op);
      assert KeyMatches(Step(s, op), LStep(l, op), k);
    }
    LedgerTeardown(l, op, k, s.entries[k]);
  }

  lemma TeardownSafety(ops: seq<Op>, op: Op, k: Key)
    requires Legal(ops) && Protocol(LRun(ops), op) && !Forced(op)
    requires k in Run(ops).entries && k !in Step(Run(ops), op).entries
    ensures var l := LStep(LRun(ops), op);
            && GuardsAt(l.guards, k, At(LRun(ops), k).lifetime) == {}
            && (At(l, k).holds[At(l, k).lifetime] > 0 <==> At(l, k).foreign > At(l, k).absorbed)
  {
    Simulation(ops);
    StepTeardown(Run(ops), LRun(ops), op, k);
  }

  /**
   * Conservation: what an entry still counts is its lifetime's guards and outstanding bare holds, less the
   * slots taken by others, plus its own releases that took none.  It is never nothing.
   */
  lemma HoldersAreConserved(ops: seq<Op>, k: Key)
    requires Legal(ops) && k in Run(ops).entries
    ensures var e, kl, guards := Run(ops).entries[k], At(LRun(ops), k), CurrentGuards(LRun(ops), k);
            && Holders(e) + kl.foreign == |guards| + kl.holds[kl.lifetime] + kl.absorbed
            && Holders(e) >= 1 && (IsTombstone(e) <==> e.count == 0)
            && e.staleReleaseCredits == kl.minted - kl.consumed
  {
    Simulation(ops);
    assert KeyMatches(Run(ops), LRun(ops), k);
  }

  /** No key lingers past its holders unless one of their own releases took no slot. */
  lemma PresentForAHolder(ops: seq<Op>, k: Key)
    requires Legal(ops) && k in Run(ops).entries && At(LRun(ops), k).absorbed <= At(LRun(ops), k).foreign
    ensures At(LRun(ops), k).holds[At(LRun(ops), k).lifetime] > 0 || CurrentGuards(LRun(ops), k) != {}
  {
    HoldersAreConserved(ops, k);
  }

  // ---------------------------------------------------------------- the wire gates

  /** Register reports one, the gate of the wire subscribe, exactly when a lifetime begins. */
  lemma SubscribeGate(ops: seq<Op>, e: Entry, now: real, guardBacked: bool)
    requires Legal(ops) && e == NewEntry(e.url, e.key, e.params)
    ensures Register(Run(ops), e, now, guardBacked).1 == 1
            <==> Joined(At(LRun(ops), e.key), !guardBacked, now).lifetime == At(LRun(ops), e.key).lifetime + 1
  {
    Simulation(ops);
    assert KeyMatches(Run(ops), LRun(ops), e.key);
  }

  function LiveCount(s: Reg, k: Key): nat {
    if k in s.entries then s.entries[k].count else 0
  }

  lemma ReleaseReports(s: Reg, k: Key, allowCredit: bool)
    requires k in s.entries && IsTombstone(s.entries[k]) ==> s.entries[k].count == 0
    ensures ReleaseInner(s, k, allowCredit).1 == LiveCount(ReleaseInner(s, k, allowCredit).0, k)
  {
  }

  /** A release and a guard drop report the live count they leave; zero, the unsubscribe gate, means not live. */
  lemma UnsubscribeGate(ops: seq<Op>, k: Key, g: GuardRef)
    requires Legal(ops) && g.key == k
    ensures Release(Run(ops), k).1 == LiveCount(Release(Run(ops), k).0, k)
    ensures ReleaseGuardRef(Run(ops), g).1 == LiveCount(ReleaseGuardRef(Run(ops), g).0, k)
  {
    Simulation(ops);
    assert KeyMatches(Run(ops), LRun(ops), k);
    ReleaseReports(Run(ops), k, true);
    ReleaseReports(Run(ops).(guardRefs := Run(ops).guardRefs - {g}), k, false);
  }

  // ---------------------------------------------------------------- what stays open

  lemma Extend(ops: seq<Op>, op: Op)
    ensures LRun(ops + [op]) == LStep(LRun(ops), op) && Run(ops + [op]) == Step(Run(ops), op)
    ensures Legal(ops + [op]) <==> Legal(ops) && Protocol(LRun(ops), op)
  {
    assert (ops + [op])[..|ops + [op]| - 1] == ops;
  }

  /** A key goes by itself although a bare holder of its lifetime has not released it. */
  ghost predicate StrandsAHolder(ops: seq<Op>, k: Key) {
    && Legal(ops) && ops != [] && !Forced(ops[|ops| - 1])
    && k in Run(ops[..|ops| - 1]).entries && k !in Run(ops).entries
    && At(LRun(ops), k).holds[At(LRun(ops), k).lifetime] > 0
  }

  /** Every bare release gives up a hold of its own. */
  ghost predicate NoStrays(ops: seq<Op>) {
    forall op :: op in ops && op.ReleaseBare? ==> op.tag.Some?
  }

  ghost predicate NoDeaths(ops: seq<Op>) {
    forall op :: op in ops ==> !op.Terminate?
  }

  ghost predicate NoForced(ops: seq<Op>) {
    forall op :: op in ops ==> !Forced(op)
  }

  ghost predicate KeepsClean(ops: seq<Op>, more: seq<Op>) {
    (NoStrays(ops) ==> NoStrays(more)) && (NoDeaths(ops) ==> NoDeaths(more)) && (NoForced(ops) ==> NoForced(more))
  }

  /** A run without guards of one key's bare operations, with the ledger it leaves. */
  ghost predicate LeadsTo(ops: seq<Op>, k: Key, kl: KeyLedger) {
    Legal(ops) && LRun(ops).guards == map[] && At(LRun(ops), k) == kl
  }

  lemma Joins(ops: seq<Op>, k: Key, kl: KeyLedger, url: WsUrl, params: Params, now: real) returns (more: seq<Op>)
    requires LeadsTo(ops, k, kl)
    ensures LeadsTo(more, k, Joined(kl, true, now))
    ensures KeepsClean(ops, more)
  {
    more := ops + [RegisterBare(url, k, params, now)];
    Extend(ops, RegisterBare(url, k, params, now));
  }

  lemma Releases(ops: seq<Op>, k: Key, kl: KeyLedger, tag: Option<nat>) returns (more: seq<Op>)
    requires LeadsTo(ops, k, kl) && (tag.Some? ==> tag.value in kl.holds)
    ensures LeadsTo(more, k, Released(kl, tag, 0))
    ensures NoDeaths(ops) ==> NoDeaths(more)
    ensures NoForced(ops) ==> NoForced(more)
    ensures NoStrays(ops) && tag.Some? ==> NoStrays(more)
  {
    more := ops + [ReleaseBare(k, tag)];
    Extend(ops, ReleaseBare(k, tag));
    assert CurrentGuards(LRun(ops), k) == {};
  }

  lemma Dies(ops: seq<Op>, k: Key, kl: KeyLedger, cause: Cause) returns (more: seq<Op>)
    requires LeadsTo(ops, k, kl) && kl.phase.Live?
    ensures LeadsTo(more, k, kl.(phase := Tomb))
    ensures (NoStrays(ops) ==> NoStrays(more)) && (NoForced(ops) ==> NoForced(more))
  {
    more := ops + [Terminate(k, cause, None)];
    Extend(ops, Terminate(k, cause, None));
  }

  lemma IsForcedOut(ops: seq<Op>, k: Key, kl: KeyLedger) returns (more: seq<Op>)
    requires LeadsTo(ops, k, kl)
    ensures LeadsTo(more, k, Gone(kl))
    ensures (NoStrays(ops) ==> NoStrays(more)) && (NoDeaths(ops) ==> NoDeaths(more))
  {
    more := ops + [ForceOut(k)];
    Extend(ops, ForceOut(k));
  }

  /** The key's ledger with no credits and no untaken releases. */
  function Plain(phase: Phase, lifetime: nat, slots: nat, holds: multiset<nat>, foreign: nat, now: real): KeyLedger {
    KeyLedger(phase, lifetime, slots, 0, 0, holds, foreign, 0, now)
  }

  /** A bare holder joins a fresh key. */
  lemma OneJoins(k: Key, url: WsUrl, params: Params, now: real) returns (ops: seq<Op>)
    ensures LeadsTo(ops, k, Plain(Live, 1, 1, multiset{1}, 0, now))
    ensures NoStrays(ops) && NoDeaths(ops) && NoForced(ops)
  {
    assert LeadsTo([], k, UNUSED);
    ops := Joins([], k, UNUSED, url, params, now);
    assert multiset{} + multiset{1} == multiset{1};
    assert Joined(UNUSED, true, now) == Plain(Live, 1, 1, multiset{1}, 0, now);
  }

  /** Two bare holders join a fresh key. */
  lemma TwoJoin(k: Key, url: WsUrl, params: Params, now: real) returns (ops: seq<Op>)
    ensures LeadsTo(ops, k, Plain(Live, 1, 2, multiset{1, 1}, 0, now))
    ensures NoStrays(ops) && NoDeaths(ops) && NoForced(ops)
  {
    ops := OneJoins(k, url, params, now);
    ops := Joins(ops, k, Plain(Live, 1, 1, multiset{1}, 0, now), url, params, now);
    assert multiset{1} + multiset{1} == multiset{1, 1};
  }

  /** One of the two leaves, and the other's hold is the only one left. */
  lemma OneLeaves(kl: KeyLedger, now: real)
    requires kl == Plain(Live, 1, 2, multiset{1, 1}, 0, now) || kl == Plain(Tomb, 1, 2, multiset{1, 1}, 0, now)
    ensures Released(kl, Some(1), 0) == Plain(kl.phase, 1, 1, multiset{1}, 0, now)
  {
    assert multiset{1, 1} - multiset{1} == multiset{1};
  }

  /** The straggler of lifetime one takes the only slot of lifetime two. */
  lemma StragglerStrands(ops: seq<Op>, k: Key, now: real) returns (more: seq<Op>)
    requires AtTheBrink(ops, k, now)
    ensures StrandsAHolder(more, k) && KeepsClean(ops, more)
  {
    more := ops + [ReleaseBare(k, Some(1))];
    var op := ReleaseBare(k, Some(1));
    assert CurrentGuards(LRun(ops), k) == {};
    assert multiset{1, 2} - multiset{1} == multiset{2};
    assert At(LStep(LRun(ops), op), k) == Released(Plain(Live, 2, 1, multiset{1, 2}, 0, now), Some(1), 0);
    Strands(ops, op, k);
  }

  /** Lifetime two has one bare holder, and a holder of lifetime one is still to release. */
  ghost predicate AtTheBrink(ops: seq<Op>, k: Key, now: real) {
    LeadsTo(ops, k, Plain(Live, 2, 1, multiset{1, 2}, 0, now))
  }

  /** One holder's double release removes the key while the other still holds it; another joins. */
  lemma StrayToTheBrink(k: Key, url: WsUrl, params: Params, now: real) returns (ops: seq<Op>)
    ensures AtTheBrink(ops, k, now) && NoDeaths(ops) && NoForced(ops)
  {
    ops := TwoJoin(k, url, params, now);
    OneLeaves(Plain(Live, 1, 2, multiset{1, 1}, 0, now), now);
    ops := Releases(ops, k, Plain(Live, 1, 2, multiset{1, 1}, 0, now), Some(1));
    ops := Releases(ops, k, Plain(Live, 1, 1, multiset{1}, 0, now), None);
    ops := Joins(ops, k, Plain(Absent, 1, 0, multiset{1}, 1, now), url, params, now);
    assert multiset{1} + multiset{2} == multiset{1, 2};
  }

  /** One of two dead holders cleans up, then retries: its reserved slot leaves no credit for the other. */
  lemma ReviverToTheBrink(k: Key, url: WsUrl, params: Params, now: real, cause: Cause) returns (ops: seq<Op>)
    ensures AtTheBrink(ops, k, now) && NoStrays(ops) && NoForced(ops)
  {
    ops := TwoJoin(k, url, params, now);
    ops := Dies(ops, k, Plain(Live, 1, 2, multiset{1, 1}, 0, now), cause);
    OneLeaves(Plain(Tomb, 1, 2, multiset{1, 1}, 0, now), now);
    ops := Releases(ops, k, Plain(Tomb, 1, 2, multiset{1, 1}, 0, now), Some(1));
    ops := Joins(ops, k, Plain(Tomb, 1, 1, multiset{1}, 0, now), url, params, now);
    assert multiset{1} + multiset{2} == multiset{1, 2};
  }

  /** The key is forced out under its holder; another joins. */
  lemma ForcedToTheBrink(k: Key, url: WsUrl, params: Params, now: real) returns (ops: seq<Op>)
    ensures AtTheBrink(ops, k, now) && NoStrays(ops) && NoDeaths(ops)
  {
    ops := OneJoins(k, url, params, now);
    ops := IsForcedOut(ops, k, Plain(Live, 1, 1, multiset{1}, 0, now));
    ops := Joins(ops, k, Plain(Absent, 1, 0, multiset{1}, 0, now), url, params, now);
    assert multiset{1} + multiset{2} == multiset{1, 2};
  }

  /**
   * With no termination and no forced removal, so by a stray release alone: a holder whose slot it took
   * releases late and takes down the key's next lifetime.
   */
  lemma OrphanedStraggler(k: Key, url: WsUrl, params: Params, now: real)
    ensures exists ops :: StrandsAHolder(ops, k) && !NoStrays(ops) && NoDeaths(ops) && NoForced(ops)
  {
    var brink := StrayToTheBrink(k, url, params, now);
    var ops := StragglerStrands(brink, k, now);
    SomethingStrands(ops, k);
  }

  /**
   * With no stray release and no forced removal, so by a termination alone: a holder that cleaned up, then
   * retried, is taken for one that still owes its dead release, and the other dead holder's release takes
   * the retry's slot.
   */
  lemma ReviverShortfall(k: Key, url: WsUrl, params: Params, now: real, cause: Cause)
    ensures exists ops :: StrandsAHolder(ops, k) && NoStrays(ops) && !NoDeaths(ops) && NoForced(ops)
  {
    var brink := ReviverToTheBrink(k, url, params, now, cause);
    var ops := StragglerStrands(brink, k, now);
    SomethingStrands(ops, k);
  }

  /** By a forced removal alone: it leaves a holder whose late release takes down the key's next lifetime. */
  lemma ForcedStraggler(k: Key, url: WsUrl, params: Params, now: real)
    ensures exists ops :: StrandsAHolder(ops, k) && NoStrays(ops) && NoDeaths(ops) && !NoForced(ops)
  {
    var brink := ForcedToTheBrink(k, url, params, now);
    var ops := StragglerStrands(brink, k, now);
    SomethingStrands(ops, k);
  }

  /** A key whose bare holders are all of its present lifetime, each with its slot. */
  ghost predicate Tidy(kl: KeyLedger) {
    && !kl.phase.Tomb? && kl.minted == 0 && kl.consumed == 0 && kl.foreign == 0 && kl.absorbed == 0
    && (kl.phase.Absent? ==> kl.slots == 0)
    && kl.holds[kl.lifetime] == kl.slots && (forall tag :: tag in kl.holds ==> tag == kl.lifetime)
  }

  lemma TidyJoin(kl: KeyLedger, bare: bool, now: real)
    requires Tidy(kl)
    ensures Tidy(Joined(kl, bare, now))
  {
    if kl.phase.Absent? { assert kl.lifetime !in kl.holds; }
  }

  lemma TidyRelease(kl: KeyLedger, tag: nat, guards: nat)
    requires Tidy(kl) && tag in kl.holds
    ensures Tidy(Released(kl, Some(tag), guards))
  {
    var left := kl.holds - multiset{tag};
    assert forall t :: t in left ==> t in kl.holds;
  }

  lemma TidyStep(l: Ledger, op: Op, k: Key)
    requires Protocol(l, op) && !Forced(op) && !op.Terminate? && (op.ReleaseBare? ==> op.tag.Some?)
    requires Tidy(At(l, k))
    ensures Tidy(At(LStep(l, op), k))
  {
    match op
    case RegisterBare(_, _, _, now) => TidyJoin(At(l, k), true, now);
    case RegisterGuard(_, _, _, now) => TidyJoin(At(l, k), false, now);
    case ReleaseBare(j, tag) => if j == k { TidyRelease(At(l, k), tag.value, |CurrentGuards(l, k)|); }
    case _ =>
  }

  lemma {:induction false} TidyRun(ops: seq<Op>, k: Key)
    requires Legal(ops) && NoStrays(ops) && NoDeaths(ops) && NoForced(ops)
    ensures Tidy(At(LRun(ops), k))
  {
    if ops != [] {
      var init, op := ops[..|ops| - 1], ops[|ops| - 1];
      assert op in ops;
      TidyRun(init, k);
      TidyStep(LRun(init), op, k);
    }
  }

  /** Every run needs one of the three: without strays, terminations and forced removals none is stranded. */
  lemma NoneIsStranded(ops: seq<Op>, k: Key)
    requires NoStrays(ops) && NoDeaths(ops) && NoForced(ops)
    ensures !StrandsAHolder(ops, k)
  {
    if Legal(ops) {
      TidyRun(ops, k);
      Simulation(ops);
      assert KeyMatches(Run(ops), LRun(ops), k);
    }
  }

  lemma SomethingStrands(ops: seq<Op>, k: Key)
    requires StrandsAHolder(ops, k)
    ensures !(NoStrays(ops) && NoDeaths(ops) && NoForced(ops))
  {
    if NoStrays(ops) && NoDeaths(ops) && NoForced(ops) { NoneIsStranded(ops, k); }
  }

  lemma Strands(ops: seq<Op>, op: Op, k: Key)
    requires Legal(ops) && Protocol(LRun(ops), op) && !Forced(op) && !At(LRun(ops), k).phase.Absent?
    requires var l := LStep(LRun(ops), op); At(l, k).phase.Absent? && At(l, k).holds[At(l, k).lifetime] > 0
    ensures StrandsAHolder(ops + [op], k)
  {
    Extend(ops, op);
    Simulation(ops);
    Simulation(ops + [op]);
    assert KeyMatches(Run(ops), LRun(ops), k);
    assert KeyMatches(Run(ops + [op]), LRun(ops + [op]), k);
    assert (ops + [op])[..|ops + [op]| - 1] == ops;
  }

  // ---------------------------------------------------------------- the mirror

  /** The mirror has the entries' keys, each row its entry's state and the stamp of its lifetime's start. */
  lemma MirrorAgrees(ops: seq<Op>)
    requires Legal(ops)
    ensures Run(ops).mirror.Keys == Run(ops).entries.Keys
    ensures forall k :: k in Run(ops).mirror ==>
              Run(ops).mirror[k] == MirrorRow(Run(ops).entries[k].state, At(LRun(ops), k).startedAt)
  {
    Simulation(ops);
    forall k ensures k in Run(ops).mirror <==> k in Run(ops).entries
             ensures k in Run(ops).mirror ==>
               Run(ops).mirror[k] == MirrorRow(Run(ops).entries[k].state, At(LRun(ops), k).startedAt) {
      assert KeyMatches(Run(ops), LRun(ops), k);
    }
  }

  // ---------------------------------------------------------------- runs from any state

  function Onward(s: Reg, ops: seq<Op>): Reg {
    if ops == [] then s else Step(Onward(s, ops[..|ops| - 1]), ops[|ops| - 1])
  }

  lemma {:induction false} RunIsOnward(ops: seq<Op>, more: seq<Op>)
    ensures Run(ops + more) == Onward(Run(ops), more)
    decreases |more|
  {
    if more == [] {
      assert ops + more == ops;
    } else {
      var init, op := more[..|more| - 1], more[|more| - 1];
      assert ops + more == ops + init + [op];
      RunIsOnward(ops, init);
      Extend(ops + init, op);
    }
  }

  // ---------------------------------------------------------------- dead lifetimes

  /** Generation `g` of key `k` has had its day: the key is absent or in a younger lifetime. */
  predicate Dead(s: Reg, k: Key, g: nat) {
    g <= s.nextGeneration && (k in s.entries ==> s.entries[k].generation > g)
  }

  /** An entry keeps its generation for as long as it is the same lifetime; a new one is above all before. */
  lemma GenerationsGrow(s: Reg, op: Op, k: Key)
    ensures s.nextGeneration <= Step(s, op).nextGeneration
    ensures k in Step(s, op).entries ==>
              (k in s.entries && Step(s, op).entries[k].generation == s.entries[k].generation)
              || Step(s, op).entries[k].generation == s.nextGeneration + 1 == Step(s, op).nextGeneration
  {
    if !Touches(op, k) { RegistryUntouched(s, op, k); }
  }

  lemma {:induction false} GenerationsAreIssued(ops: seq<Op>, k: Key)
    ensures k in Run(ops).entries ==> Run(ops).entries[k].generation <= Run(ops).nextGeneration
  {
    if ops == [] {
    } else {
      GenerationsAreIssued(ops[..|ops| - 1], k);
      GenerationsGrow(Run(ops[..|ops| - 1]), ops[|ops| - 1], k);
    }
  }

  lemma {:induction false} EndedStaysDead(s: Reg, op: Op, ops: seq<Op>, k: Key)
    requires k in s.entries && s.entries[k].generation <= s.nextGeneration
    requires k in Step(s, op).entries ==> Step(s, op).entries[k].generation != s.entries[k].generation
    ensures Dead(Onward(Step(s, op), ops), k, s.entries[k].generation)
  {
    if ops == [] {
      GenerationsGrow(s, op, k);
    } else {
      EndedStaysDead(s, op, ops[..|ops| - 1], k);
      GenerationsGrow(Onward(Step(s, op), ops[..|ops| - 1]), ops[|ops| - 1], k);
    }
  }

  /**
   * A lifetime that ends at some point of a run, by removal or by revival, is dead from then on: its
   * generation is below that of every later entry of the key.
   */
  lemma DeadForever(ops: seq<Op>, op: Op, more: seq<Op>, k: Key)
    requires k in Run(ops).entries
    requires k in Run(ops + [op]).entries ==> Run(ops + [op]).entries[k].generation != Run(ops).entries[k].generation
    ensures Dead(Run(ops + [op] + more), k, Run(ops).entries[k].generation)
  {
    GenerationsAreIssued(ops, k);
    RunIsOnward(ops, [op]);
    RunIsOnward(ops + [op], more);
    Extend(ops, op);
    EndedStaysDead(Run(ops), op, more, k);
  }

  /** Dropping a guard of a dead lifetime forgets its reference and does nothing else. */
  lemma DeadDropIsForgotten(s: Reg, g: GuardRef)
    requires g in s.guardRefs && Dead(s, g.key, s.guardRefs[g])
    ensures ReleaseGuardRef(s, g) == (s.(guardRefs := s.guardRefs - {g}), LiveCount(s, g.key))
  {
  }

  function Without(s: Reg, g: GuardRef): Reg {
    s.(guardRefs := s.guardRefs - {g})
  }

  predicate Mentions(op: Op, g: GuardRef) {
    (op.RegisterGuard? || op.DropGuard?) && op.guard == g
  }

  /** A dead guard is not among those of any key's present lifetime. */
  lemma DeadIsNotCounted(s: Reg, g: GuardRef, k: Key)
    requires g in s.guardRefs && Dead(s, g.key, s.guardRefs[g]) && k in s.entries
    ensures GuardsAt(s.guardRefs - {g}, k, s.entries[k].generation) == GuardsAt(s.guardRefs, k, s.entries[k].generation)
  {
  }

  lemma DeadReleasesApart(s: Reg, g: GuardRef, k: Key, allowCredit: bool)
    requires g in s.guardRefs && Dead(s, g.key, s.guardRefs[g])
    ensures ReleaseInner(Without(s, g), k, allowCredit)
            == (Without(ReleaseInner(s, k, allowCredit).0, g), ReleaseInner(s, k, allowCredit).1)
  {
    if k in s.entries { DeadIsNotCounted(s, g, k); }
  }

  lemma DeadRegistersApart(s: Reg, g: GuardRef, e: Entry, now: real, guardBacked: bool)
    requires g in s.guardRefs && Dead(s, g.key, s.guardRefs[g])
    ensures Register(Without(s, g), e, now, guardBacked)
            == (Without(Register(s, e, now, guardBacked).0, g), Register(s, e, now, guardBacked).1)
  {
    if e.key in s.entries { DeadIsNotCounted(s, g, e.key); }
  }

  lemma DeadStaysDead(s: Reg, g: GuardRef, op: Op)
    requires g in s.guardRefs && Dead(s, g.key, s.guardRefs[g]) && !Mentions(op, g)
    ensures g in Step(s, op).guardRefs && Step(s, op).guardRefs[g] == s.guardRefs[g]
    ensures Dead(Step(s, op), g.key, s.guardRefs[g])
  {
    GenerationsGrow(s, op, g.key);
    GuardRefsAfter(s, op);
  }

  lemma DeadStepsApart(s: Reg, g: GuardRef, op: Op)
    requires g in s.guardRefs && Dead(s, g.key, s.guardRefs[g]) && !Mentions(op, g)
    ensures Step(Without(s, g), op) == Without(Step(s, op), g)
  {
    match op
    case RegisterBare(url, k, params, now) => DeadRegistersApart(s, g, NewEntry(url, k, params), now, false);
    case RegisterGuard(url, h, params, now) =>
      var e := NewEntry(url, h.key, params);
      DeadRegistersApart(s, g, e, now, true);
      var r := Register(s, e, now, true).0;
      assert r.guardRefs[h := r.entries[h.key].generation] - {g}
             == (r.guardRefs - {g})[h := r.entries[h.key].generation];
    case ReleaseBare(k, _) => DeadReleasesApart(s, g, k, true);
    case DropGuard(h) =>
      var forgotten := Without(s, h);
      assert s.guardRefs - {g} - {h} == forgotten.guardRefs - {g};
      DeadReleasesApart(forgotten, g, h.key, false);
    case _ =>
  }

  lemma {:induction false} DeadRunsApart(s: Reg, g: GuardRef, ops: seq<Op>)
    requires g in s.guardRefs && Dead(s, g.key, s.guardRefs[g])
    requires forall op :: op in ops ==> !Mentions(op, g)
    ensures Onward(ReleaseGuardRef(s, g).0, ops) == Without(Onward(s, ops), g)
    ensures g in Onward(s, ops).guardRefs && Onward(s, ops).guardRefs[g] == s.guardRefs[g]
    ensures Dead(Onward(s, ops), g.key, s.guardRefs[g])
  {
    DeadDropIsForgotten(s, g);
    if ops == [] {
    } else {
      var before, op := ops[..|ops| - 1], ops[|ops| - 1];
      DeadRunsApart(s, g, before);
      DeadStaysDead(Onward(s, before), g, op);
      DeadStepsApart(Onward(s, before), g, op);
    }
  }

  /** No reference was recorded in a generation above the key's present one, or above those handed out. */
  predicate RecordedByNow(s: Reg, g: GuardRef) {
    g in s.guardRefs ==>
      s.guardRefs[g] <= s.nextGeneration && (g.key in s.entries ==> s.guardRefs[g] <= s.entries[g.key].generation)
  }

  lemma {:induction false} ReferencesAreOfThePast(ops: seq<Op>, g: GuardRef)
    ensures RecordedByNow(Run(ops), g)
  {
    if ops != [] {
      var init, op := ops[..|ops| - 1], ops[|ops| - 1];
      ReferencesAreOfThePast(init, g);
      GenerationsAreIssued(ops, g.key);
      GenerationsGrow(Run(init), op, g.key);
      GuardRefsAfter(Run(init), op);
    }
  }

  /** The guard's lifetime is over: the key is absent or in another lifetime than the guard joined. */
  predicate Outlived(l: Ledger, g: GuardRef)
    requires g in l.guards
  {
    At(l, g.key).phase.Absent? || l.guards[g] != At(l, g.key).lifetime
  }

  /** What the ledger calls outlived is dead in the registry. */
  lemma OutlivedIsDead(ops: seq<Op>, g: GuardRef)
    requires Legal(ops) && g in LRun(ops).guards && Outlived(LRun(ops), g)
    ensures g in Run(ops).guardRefs && Dead(Run(ops), g.key, Run(ops).guardRefs[g])
  {
    var s, l, k := Run(ops), LRun(ops), g.key;
    Simulation(ops);
    assert KeyMatches(s, l, k);
    ReferencesAreOfThePast(ops, g);
    if k in s.entries {
      assert g !in CurrentGuards(l, k);
      assert g !in GuardsAt(s.guardRefs, k, s.entries[k].generation);
    }
  }

  /**
   * Dead-lifetime isolation, over every legal run: once a guard's lifetime is over, dropping it answers
   * with the present count, and whether it was dropped or not, every later operation leaves the same
   * entries, counts, credits, mirror and epoch.
   */
  lemma DeadGuardsAreNotFelt(ops: seq<Op>, g: GuardRef, more: seq<Op>)
    requires Legal(ops) && g in LRun(ops).guards && Outlived(LRun(ops), g)
    requires forall op :: op in more ==> !Mentions(op, g)
    ensures ReleaseGuardRef(Run(ops), g).1 == LiveCount(Run(ops), g.key)
    ensures Run(ops + [DropGuard(g)] + more) == Without(Run(ops + more), g)
  {
    OutlivedIsDead(ops, g);
    DeadDropIsForgotten(Run(ops), g);
    DeadRunsApart(Run(ops), g, more);
    Extend(ops, DropGuard(g));
    RunIsOnward(ops + [DropGuard(g)], more);
    RunIsOnward(ops, more);
  }

  // ---------------------------------------------------------------- the liveness epoch

  /** The live keys and where they route: all that reconnecting, probing and replaying depend on. */
  function LiveRoutes(s: Reg): map<Key, WsUrl> {
    map k | k in s.entries && !IsTombstone(s.entries[k]) :: s.entries[k].url
  }

  lemma UrlEntriesFromRoutes(s: Reg, url: WsUrl)
    ensures HasUrlEntry(s, url) <==> exists k :: k in LiveRoutes(s) && LiveRoutes(s)[k] == url
  {
    if HasUrlEntry(s, url) {
      var k :| k in s.entries && s.entries[k].url == url && !IsTombstone(s.entries[k]);
      assert k in LiveRoutes(s);
    }
  }

  lemma ReleaseEpoch(s: Reg, k: Key, allowCredit: bool)
    ensures var after := ReleaseInner(s, k, allowCredit).0;
            s.epoch <= after.epoch && (s.epoch == after.epoch ==> LiveRoutes(after) == LiveRoutes(s))
  {
  }

  lemma StepEpoch(s: Reg, op: Op)
    ensures s.epoch <= Step(s, op).epoch
    ensures s.epoch == Step(s, op).epoch ==> LiveRoutes(Step(s, op)) == LiveRoutes(s)
  {
    match op
    case ReleaseBare(k, _) => ReleaseEpoch(s, k, true);
    case DropGuard(g) => ReleaseEpoch(Without(s, g), g.key, false);
    case _ =>
  }

  /** Between two states of a run with the same epoch no key went live, dead or elsewhere. */
  lemma {:induction false} EpochSound(s: Reg, ops: seq<Op>)
    ensures s.epoch <= Onward(s, ops).epoch
    ensures s.epoch == Onward(s, ops).epoch ==>
              LiveRoutes(Onward(s, ops)) == LiveRoutes(s)
              && forall url :: HasUrlEntry(Onward(s, ops), url) <==> HasUrlEntry(s, url)
  {
    if ops == [] {
    } else {
      var before, op := ops[..|ops| - 1], ops[|ops| - 1];
      EpochSound(s, before);
      StepEpoch(Onward(s, before), op);
      forall url | s.epoch == Onward(s, ops).epoch ensures HasUrlEntry(Onward(s, ops), url) <==> HasUrlEntry(s, url) {
        UrlEntriesFromRoutes(s, url);
        UrlEntriesFromRoutes(Onward(s, ops), url);
      }
    }
  }

  /** The key is there or not, and if it is with the same live count and the same life in it, as before. */
  predicate SameLife(s: Reg, s': Reg, k: Key) {
    && (k in s.entries <==> k in s'.entries)
    && (k in s.entries ==> s'.entries[k].count == s.entries[k].count && IsTombstone(s'.entries[k]) == IsTombstone(s.entries[k]))
  }

  /**
   * The epoch rests when it can: a release absorbed by a credit, stopped at the gate or counting a tombstone
   * down, an ack and a repeated termination leave it alone.  Only what changes a key's life moves it.
   */
  lemma EpochRests(s: Reg, k: Key, tag: Option<nat>, cause: Cause, lastError: Option<string>)
    ensures SameLife(s, Step(s, ReleaseBare(k, tag)), k) ==> Step(s, ReleaseBare(k, tag)).epoch == s.epoch
    ensures Step(s, Ack(k)).epoch == s.epoch
    ensures SameLife(s, Step(s, Terminate(k, cause, lastError)), k) ==> Step(s, Terminate(k, cause, lastError)).epoch == s.epoch
  {
  }

  /** A drop without a recorded reference takes one holder of whatever lifetime the key is in, and no credit. */
  lemma UnrecordedDropTakesAHolder(s: Reg, g: GuardRef)
    requires g !in s.guardRefs && g.key in s.entries && Holders(s.entries[g.key]) >= 1
    ensures var s', k := ReleaseGuardRef(s, g).0, g.key;
            && s'.guardRefs == s.guardRefs
            && (k in s'.entries <==> Holders(s.entries[k]) > 1)
            && (k in s'.entries ==> Holders(s'.entries[k]) == Holders(s.entries[k]) - 1
                                    && s'.entries[k].staleReleaseCredits == s.entries[k].staleReleaseCredits)
  {
    assert s.guardRefs - {g} == s.guardRefs;
  }

  /** A guard of an absent key is not recorded; of a present one, in the generation it is in. */
  lemma RecordedWhenPresent(s: Reg, g: GuardRef)
    ensures g.key !in s.entries ==> RecordGuardRef(s, g) == s
    ensures g.key in s.entries ==>
              g in RecordGuardRef(s, g).guardRefs && RecordGuardRef(s, g).guardRefs[g] == s.entries[g.key].generation
  {
  }
}
