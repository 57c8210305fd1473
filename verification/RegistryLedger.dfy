/**
 * The ideal ledger: who holds each key, lifetime by lifetime.  It knows what the registry cannot see, the
 * hold behind every anonymous release, and it never looks at the registry.  The registry's scalars are
 * shown to be exactly what the ledger says they should be, over every run.
 */
module RegistryLedger {
  import opened Util
  import opened Registry

  datatype Phase = Absent | Live | Tomb

  /**
   * One key.  Lifetimes are numbered from one and never reused; `slots` are the bare holders the current
   * lifetime still counts; `holds` are the lifetimes of the bare holds callers still have, dead ones
   * included.  Of the current lifetime, `foreign` counts the slots taken by stray or other-lifetime
   * releases, and `absorbed` its own holders' releases that took none.
   */
  datatype KeyLedger = KeyLedger(phase: Phase, lifetime: nat, slots: nat, minted: nat, consumed: nat,
                                 holds: multiset<nat>, foreign: nat, absorbed: nat, startedAt: real)

  /** `guards` are the undropped guards with the lifetime each joined. */
  datatype Ledger = Ledger(keys: map<Key, KeyLedger>, guards: GuardRefs)

  const UNUSED: KeyLedger := KeyLedger(Absent, 0, 0, 0, 0, multiset{}, 0, 0, 0.0)

  function At(l: Ledger, k: Key): KeyLedger {
    if k in l.keys then l.keys[k] else UNUSED
  }

  function Put(l: Ledger, k: Key, kl: KeyLedger): Ledger {
    l.(keys := l.keys[k := kl])
  }

  /** The undropped guards of the key's current lifetime. */
  function CurrentGuards(l: Ledger, k: Key): set<GuardRef> {
    GuardsAt(l.guards, k, At(l, k).lifetime)
  }

  // ---------------------------------------------------------------- the ideal rules

  function NewLifetime(kl: KeyLedger, bare: bool, now: real): KeyLedger {
    kl.(phase := Live, lifetime := kl.lifetime + 1, slots := if bare then 1 else 0,
        holds := if bare then kl.holds + multiset{kl.lifetime + 1} else kl.holds,
        foreign := 0, absorbed := 0, startedAt := now)
  }

  /** A revival owes a credit to every dead bare holder but, for a bare reviver, one. */
  function Joined(kl: KeyLedger, bare: bool, now: real): KeyLedger {
    match kl.phase
    case Absent => NewLifetime(kl, bare, now)
    case Tomb => NewLifetime(kl.(minted := kl.minted + Monus(kl.slots, if bare then 1 else 0)), bare, now)
    case Live => if bare then kl.(slots := kl.slots + 1, holds := kl.holds + multiset{kl.lifetime}) else kl
  }

  function Gone(kl: KeyLedger): KeyLedger {
    kl.(phase := Absent, slots := 0, minted := 0, consumed := 0)
  }

  /** The key goes when its last slot and its last guard are gone. */
  function Settled(kl: KeyLedger, guards: nat): KeyLedger {
    if kl.slots + guards == 0 then Gone(kl) else kl
  }

  function GivenUp(kl: KeyLedger, tag: Option<nat>): KeyLedger {
    if tag.Some? then kl.(holds := kl.holds - multiset{tag.value}) else kl
  }

  /** A release that takes no slot, although its holder may have one. */
  function Absorbed(kl: KeyLedger, tag: Option<nat>): KeyLedger {
    GivenUp(kl, tag).(absorbed := kl.absorbed + if tag == Some(kl.lifetime) then 1 else 0)
  }

  /** A release that takes a slot, whoever it belonged to. */
  function SlotTaken(kl: KeyLedger, tag: Option<nat>): KeyLedger
    requires kl.slots > 0
  {
    GivenUp(kl, tag).(slots := kl.slots - 1, foreign := kl.foreign + if tag == Some(kl.lifetime) then 0 else 1)
  }

  /** An anonymous release: a credit pays for it first, then a bare slot, else nothing happens. */
  function Released(kl: KeyLedger, tag: Option<nat>, guards: nat): KeyLedger {
    if kl.phase.Absent? then GivenUp(kl, tag)
    else if kl.consumed < kl.minted then Absorbed(kl, tag).(consumed := kl.consumed + 1)
    else if kl.slots == 0 then Absorbed(kl, tag)
    else Settled(SlotTaken(kl, tag), guards)
  }

  function LStep(l: Ledger, op: Op): Ledger {
    match op
    case RegisterBare(_, k, _, now) => Put(l, k, Joined(At(l, k), true, now))
    case RegisterGuard(_, g, _, now) =>
      var kl := Joined(At(l, g.key), false, now);
      Ledger(l.keys[g.key := kl], l.guards[g := kl.lifetime])
    case ReleaseBare(k, tag) => Put(l, k, Released(At(l, k), tag, |CurrentGuards(l, k)|))
    case DropGuard(g) =>
      var dropped := l.(guards := l.guards - {g});
      if !At(l, g.key).phase.Absent? && g in CurrentGuards(l, g.key)
      then Put(dropped, g.key, Settled(At(l, g.key), |CurrentGuards(dropped, g.key)|))
      else dropped
    case Ack(_) => l
    case Terminate(k, _, _) => if At(l, k).phase.Live? then Put(l, k, At(l, k).(phase := Tomb)) else l
    case ForceOut(k) => Put(l, k, Gone(At(l, k)))
    case ForceOutAll(channel) =>
      l.(keys := map k | k in l.keys :: if InChannel(k, channel) then Gone(l.keys[k]) else l.keys[k])
  }

  /** What the reactor guarantees: fresh guard ids, each guard dropped once, a hold given up only if held. */
  predicate Protocol(l: Ledger, op: Op) {
    match op
    case RegisterGuard(_, g, _, _) => g !in l.guards
    case DropGuard(g) => g in l.guards
    case ReleaseBare(k, tag) => tag.Some? ==> tag.value in At(l, k).holds
    case _ => true
  }

  function LRun(ops: seq<Op>): Ledger {
    if ops == [] then Ledger(map[], map[]) else LStep(LRun(ops[..|ops| - 1]), ops[|ops| - 1])
  }

  predicate Legal(ops: seq<Op>) {
    ops == [] || (Legal(ops[..|ops| - 1]) && Protocol(LRun(ops[..|ops| - 1]), ops[|ops| - 1]))
  }

  // ---------------------------------------------------------------- the simulation relation

  /** Every outstanding hold of the lifetime has its slot, but for the foreign and the absorbed releases. */
  ghost predicate SlotsAccounted(kl: KeyLedger) {
    kl.holds[kl.lifetime] + kl.absorbed == kl.slots + kl.foreign
  }

  /** One present entry against its ledger, with `guards` undropped guards in the current lifetime. */
  ghost predicate EntryMatches(e: Entry, kl: KeyLedger, guards: nat) {
    && (kl.phase.Live? || kl.phase.Tomb?) && (IsTombstone(e) <==> kl.phase.Tomb?)
    && kl.slots + guards >= 1
    && e.count == (if kl.phase.Live? then kl.slots + guards else 0)
    && e.tombstoneHolders == (if kl.phase.Tomb? then kl.slots + guards else 0)
    && kl.consumed <= kl.minted && e.staleReleaseCredits == kl.minted - kl.consumed
    && SlotsAccounted(kl)
  }

  ghost predicate PastHolds(kl: KeyLedger) {
    forall tag :: tag in kl.holds ==> tag <= kl.lifetime
  }

  /** No hold or guard belongs to a lifetime that has not begun. */
  ghost predicate NoFuture(l: Ledger, k: Key) {
    && PastHolds(At(l, k))
    && (forall g :: g in l.guards && g.key == k ==> l.guards[g] <= At(l, k).lifetime)
  }

  ghost predicate KeyMatches(s: Reg, l: Ledger, k: Key) {
    && NoFuture(l, k)
    && (k in s.entries <==> !At(l, k).phase.Absent?)
    && (k in s.mirror <==> k in s.entries)
    && (if k in s.entries then PresentMatches(s, l, k) else Blank(At(l, k)))
  }

  /** A key that is gone keeps no accounting. */
  predicate Blank(kl: KeyLedger) {
    kl.phase.Absent? && kl.slots == 0 && kl.minted == 0 && kl.consumed == 0
  }

  ghost predicate PresentMatches(s: Reg, l: Ledger, k: Key)
    requires k in s.entries && k in s.mirror
  {
    var e := s.entries[k];
    && e.key == k
    && e.generation <= s.nextGeneration
    && GuardsAt(s.guardRefs, k, e.generation) == CurrentGuards(l, k)
    && EntryMatches(e, At(l, k), |CurrentGuards(l, k)|)
    && s.mirror[k] == MirrorRow(e.state, At(l, k).startedAt)
  }

  ghost predicate Matches(s: Reg, l: Ledger) {
    && s.guardRefs.Keys == l.guards.Keys
    && (forall g :: g in s.guardRefs ==> s.guardRefs[g] <= s.nextGeneration)
    && (forall k :: KeyMatches(s, l, k))
  }

  /** The two registries look the same from key `k`, up to newer generations having been handed out. */
  ghost predicate SameAt(s: Reg, s': Reg, k: Key) {
    && s.nextGeneration <= s'.nextGeneration
    && (k in s'.entries <==> k in s.entries) && (k in s.entries ==> s'.entries[k] == s.entries[k])
    && (k in s'.mirror <==> k in s.mirror) && (k in s.mirror ==> s'.mirror[k] == s.mirror[k])
    && SameGuards(s.guardRefs, s'.guardRefs, k)
  }

  ghost predicate SameGuards(a: GuardRefs, b: GuardRefs, k: Key) {
    forall g: GuardRef :: g.key == k ==> (g in b <==> g in a) && (g in a ==> b[g] == a[g])
  }

  lemma SameGuardsAt(a: GuardRefs, b: GuardRefs, k: Key, generation: nat)
    requires SameGuards(a, b, k)
    ensures GuardsAt(a, k, generation) == GuardsAt(b, k, generation)
  {
  }

  lemma Undisturbed(s: Reg, l: Ledger, s': Reg, l': Ledger, k: Key)
    requires KeyMatches(s, l, k)
    requires SameAt(s, s', k) && At(l', k) == At(l, k) && SameGuards(l.guards, l'.guards, k)
    ensures KeyMatches(s', l', k)
  {
    SameGuardsAt(l.guards, l'.guards, k, At(l, k).lifetime);
    assert NoFuture(l', k);
    if k in s.entries {
      SameGuardsAt(s.guardRefs, s'.guardRefs, k, s.entries[k].generation);
    }
  }

  // ---------------------------------------------------------------- guards of one lifetime

  /** A generation, or a lifetime, not handed out yet has no guards. */
  lemma NoGuardsYet(refs: GuardRefs, k: Key, generation: nat)
    requires forall g :: g in refs && g.key == k ==> refs[g] < generation
    ensures GuardsAt(refs, k, generation) == {}
  {
  }

  lemma GuardJoins(refs: GuardRefs, g: GuardRef, generation: nat)
    requires g !in refs
    ensures GuardsAt(refs[g := generation], g.key, generation) == GuardsAt(refs, g.key, generation) + {g}
    ensures |GuardsAt(refs[g := generation], g.key, generation)| == |GuardsAt(refs, g.key, generation)| + 1
  {
    assert GuardsAt(refs[g := generation], g.key, generation) == GuardsAt(refs, g.key, generation) + {g};
  }

  lemma GuardLeaves(refs: GuardRefs, g: GuardRef, generation: nat)
    requires g in refs
    ensures GuardsAt(refs - {g}, g.key, generation) == GuardsAt(refs, g.key, generation) - {g}
    ensures refs[g] == generation
            ==> |GuardsAt(refs - {g}, g.key, generation)| == |GuardsAt(refs, g.key, generation)| - 1
    ensures refs[g] != generation ==> GuardsAt(refs - {g}, g.key, generation) == GuardsAt(refs, g.key, generation)
  {
    assert GuardsAt(refs - {g}, g.key, generation) == GuardsAt(refs, g.key, generation) - {g};
    if refs[g] == generation {
      assert g in GuardsAt(refs, g.key, generation);
    }
  }

  // ---------------------------------------------------------------- one entry against its ledger

  /** A fresh key: the subscriber is its one holder. */
  lemma FreshMatches(kl: KeyLedger, e: Entry, bare: bool, now: real)
    requires Blank(kl) && e.count == 1 && e.state.Pending? && e.tombstoneHolders == 0 && e.staleReleaseCredits == 0
    requires kl.lifetime + 1 !in kl.holds
    ensures EntryMatches(e, Joined(kl, bare, now), if bare then 0 else 1)
  {
  }

  /** A revival turns the dead lifetime's bare slots, but for the reviver's, into credits. */
  lemma RevivalMatches(e: Entry, kl: KeyLedger, guards: nat, reviver: Entry, generation: nat, bare: bool, now: real)
    requires EntryMatches(e, kl, guards) && IsTombstone(e)
    requires kl.lifetime + 1 !in kl.holds
    ensures EntryMatches(Revived(e, reviver, generation, guards, !bare), Joined(kl, bare, now), if bare then 0 else 1)
  {
  }

  lemma JoinerMatches(e: Entry, kl: KeyLedger, guards: nat, bare: bool, now: real)
    requires EntryMatches(e, kl, guards) && !IsTombstone(e)
    ensures EntryMatches(e.(count := e.count + 1), Joined(kl, bare, now), if bare then guards else guards + 1)
  {
  }

  /** The entry a release leaves, if it leaves one. */
  function AfterRelease(e: Entry, guards: nat, allowCredit: bool): Option<Entry> {
    if allowCredit && e.staleReleaseCredits > 0 then Some(e.(staleReleaseCredits := e.staleReleaseCredits - 1))
    else if allowCredit && Monus(Holders(e), guards) == 0 then Some(e)
    else if Monus(Holders(e), 1) == 0 then None
    else if IsTombstone(e) then Some(e.(tombstoneHolders := e.tombstoneHolders - 1))
    else Some(e.(count := e.count - 1))
  }

  ghost predicate LeftMatches(left: Option<Entry>, kl: KeyLedger, guards: nat) {
    if left.Some? then EntryMatches(left.value, kl, guards) else Blank(kl)
  }

  lemma CreditMatches(e: Entry, kl: KeyLedger, guards: nat, tag: Option<nat>)
    requires EntryMatches(e, kl, guards) && (tag.Some? ==> tag.value in kl.holds) && e.staleReleaseCredits > 0
    ensures EntryMatches(e.(staleReleaseCredits := e.staleReleaseCredits - 1),
                         Absorbed(kl, tag).(consumed := kl.consumed + 1), guards)
  {
  }

  lemma StrayMatches(e: Entry, kl: KeyLedger, guards: nat, tag: Option<nat>)
    requires EntryMatches(e, kl, guards) && (tag.Some? ==> tag.value in kl.holds)
    ensures EntryMatches(e, Absorbed(kl, tag), guards)
  {
  }

  /** The entry that counts one holder fewer. */
  function CountedDown(e: Entry): Entry
    requires Holders(e) >= 1
  {
    if IsTombstone(e) then e.(tombstoneHolders := e.tombstoneHolders - 1) else e.(count := e.count - 1)
  }

  lemma SlotTakenMatches(e: Entry, kl: KeyLedger, guards: nat, tag: Option<nat>)
    requires EntryMatches(e, kl, guards) && (tag.Some? ==> tag.value in kl.holds) && kl.slots > 0
    ensures kl.slots + guards > 1 ==> EntryMatches(CountedDown(e), SlotTaken(kl, tag), guards)
  {
  }

  /** An anonymous release leaves the entry the ledger says it should. */
  lemma ReleasedMatches(e: Entry, kl: KeyLedger, guards: nat, tag: Option<nat>)
    requires EntryMatches(e, kl, guards) && (tag.Some? ==> tag.value in kl.holds)
    ensures LeftMatches(AfterRelease(e, guards, true), Released(kl, tag, guards), guards)
  {
    assert Holders(e) == kl.slots + guards;
    if e.staleReleaseCredits > 0 {
      CreditMatches(e, kl, guards, tag);
    } else if kl.slots == 0 {
      StrayMatches(e, kl, guards, tag);
    } else {
      SlotTakenMatches(e, kl, guards, tag);
    }
  }

  lemma GivenUpIsPast(kl: KeyLedger, tag: Option<nat>)
    requires PastHolds(kl)
    ensures PastHolds(GivenUp(kl, tag))
  {
    forall t | t in GivenUp(kl, tag).holds ensures t <= kl.lifetime {
      assert t in kl.holds;
    }
  }

  lemma ReleasedKeepsLifetime(kl: KeyLedger, tag: Option<nat>, guards: nat)
    ensures var after := Released(kl, tag, guards);
            && after.holds == GivenUp(kl, tag).holds && after.lifetime == kl.lifetime
            && after.startedAt == kl.startedAt && (Blank(kl) ==> Blank(after))
  {
    if kl.phase.Absent? {
    } else if kl.consumed < kl.minted {
    } else if kl.slots == 0 {
    } else {
      assert Released(kl, tag, guards) == Settled(SlotTaken(kl, tag), guards);
    }
  }

  lemma JoinedMovesOn(kl: KeyLedger, bare: bool, now: real)
    requires PastHolds(kl)
    ensures PastHolds(Joined(kl, bare, now)) && kl.lifetime + 1 !in kl.holds
    ensures Joined(kl, bare, now).lifetime == (if kl.phase.Live? then kl.lifetime else kl.lifetime + 1)
    ensures Joined(kl, bare, now).startedAt == (if kl.phase.Live? then kl.startedAt else now)
  {
  }

  /** A guard of the current lifetime takes exactly its own slot with it. */
  lemma DroppedMatches(e: Entry, kl: KeyLedger, guards: nat)
    requires EntryMatches(e, kl, guards) && guards >= 1
    ensures LeftMatches(AfterRelease(e, guards - 1, false), Settled(kl, guards - 1), guards - 1)
  {
  }

  // ---------------------------------------------------------------- every operation keeps the relation

  function EntryAt(s: Reg, k: Key): Option<Entry> {
    if k in s.entries then Some(s.entries[k]) else None
  }

  /** What a release does to the registry, through the one entry it touches. */
  lemma ReleaseShape(s: Reg, k: Key, allowCredit: bool)
    requires k in s.entries
    ensures var s', left := ReleaseInner(s, k, allowCredit).0,
                            AfterRelease(s.entries[k], |GuardsAt(s.guardRefs, k, s.entries[k].generation)|, allowCredit);
            && s'.guardRefs == s.guardRefs && s'.nextGeneration == s.nextGeneration
            && s'.entries == (if left.Some? then s.entries[k := left.value] else s.entries - {k})
            && s'.mirror == (if left.Some? then s.mirror else s.mirror - {k})
            && (left.Some? ==> SameLifetime(left.value, s.entries[k]))
  {
    var e := s.entries[k];
    var counted := if IsTombstone(e) then e.(tombstoneHolders := Monus(e.tombstoneHolders, 1))
                   else e.(count := Monus(e.count, 1));
    assert s.entries[k := e] == s.entries;
    assert s.entries[k := counted] - {k} == s.entries - {k};
  }

  predicate SameLifetime(a: Entry, b: Entry) {
    a.key == b.key && a.generation == b.generation && a.state == b.state
  }

  lemma BareRegisterMatches(s: Reg, l: Ledger, url: WsUrl, k: Key, params: Params, now: real)
    requires Matches(s, l)
    ensures KeyMatches(Step(s, RegisterBare(url, k, params, now)), LStep(l, RegisterBare(url, k, params, now)), k)
  {
    var op := RegisterBare(url, k, params, now);
    var s', l', kl := Step(s, op), LStep(l, op), At(l, k);
    assert KeyMatches(s, l, k);
    NoGuardsYet(l.guards, k, kl.lifetime + 1);
    NoGuardsYet(s.guardRefs, k, s.nextGeneration + 1);
    JoinedMovesOn(kl, true, now);
    if k !in s.entries {
      FreshMatches(kl, s'.entries[k], true, now);
    } else if IsTombstone(s.entries[k]) {
      RevivalMatches(s.entries[k], kl, |CurrentGuards(l, k)|, NewEntry(url, k, params), s.nextGeneration + 1, true, now);
    } else {
      JoinerMatches(s.entries[k], kl, |CurrentGuards(l, k)|, true, now);
    }
  }

  /** A guard's register before its ref is recorded: the entry already counts it, the guard sets do not. */
  lemma GuardedEntryMatches(s: Reg, l: Ledger, url: WsUrl, k: Key, params: Params, now: real)
    requires Matches(s, l)
    ensures var r, kl := Register(s, NewEntry(url, k, params), now, true).0, Joined(At(l, k), false, now);
            var refs := GuardsAt(s.guardRefs, k, r.entries[k].generation);
            && refs == GuardsAt(l.guards, k, kl.lifetime)
            && EntryMatches(r.entries[k], kl, |refs| + 1)
            && kl.lifetime >= At(l, k).lifetime && r.entries[k].key == k
            && r.entries[k].generation <= r.nextGeneration
            && k in r.mirror && r.mirror[k] == MirrorRow(r.entries[k].state, kl.startedAt)
  {
    var r, kl := Register(s, NewEntry(url, k, params), now, true).0, At(l, k);
    assert KeyMatches(s, l, k);
    NoGuardsYet(l.guards, k, kl.lifetime + 1);
    NoGuardsYet(s.guardRefs, k, s.nextGeneration + 1);
    JoinedMovesOn(kl, false, now);
    if k !in s.entries {
      FreshMatches(kl, r.entries[k], false, now);
    } else if IsTombstone(s.entries[k]) {
      RevivalMatches(s.entries[k], kl, |CurrentGuards(l, k)|, NewEntry(url, k, params), s.nextGeneration + 1, false, now);
    } else {
      JoinerMatches(s.entries[k], kl, |CurrentGuards(l, k)|, false, now);
    }
  }

  lemma GuardRegisterMatches(s: Reg, l: Ledger, url: WsUrl, g: GuardRef, params: Params, now: real)
    requires Matches(s, l) && g !in l.guards
    ensures KeyMatches(Step(s, RegisterGuard(url, g, params, now)), LStep(l, RegisterGuard(url, g, params, now)), g.key)
  {
    var op, k := RegisterGuard(url, g, params, now), g.key;
    var s', l' := Step(s, op), LStep(l, op);
    assert KeyMatches(s, l, k);
    GuardedEntryMatches(s, l, url, k, params, now);
    GuardJoins(s.guardRefs, g, s'.entries[k].generation);
    GuardJoins(l.guards, g, At(l', k).lifetime);
    JoinedMovesOn(At(l, k), false, now);
  }

  lemma ReleaseMatches(s: Reg, l: Ledger, k: Key, tag: Option<nat>)
    requires Matches(s, l) && Protocol(l, ReleaseBare(k, tag))
    ensures KeyMatches(Step(s, ReleaseBare(k, tag)), LStep(l, ReleaseBare(k, tag)), k)
  {
    var l' := LStep(l, ReleaseBare(k, tag));
    assert KeyMatches(s, l, k);
    GivenUpIsPast(At(l, k), tag);
    ReleasedKeepsLifetime(At(l, k), tag, |CurrentGuards(l, k)|);
    assert CurrentGuards(l', k) == CurrentGuards(l, k);
    if k in s.entries {
      ReleaseShape(s, k, true);
      ReleasedMatches(s.entries[k], At(l, k), |CurrentGuards(l, k)|, tag);
    }
  }

  lemma DropMatches(s: Reg, l: Ledger, g: GuardRef)
    requires Matches(s, l) && g in l.guards
    ensures KeyMatches(Step(s, DropGuard(g)), LStep(l, DropGuard(g)), g.key)
  {
    var k := g.key;
    var l' := LStep(l, DropGuard(g));
    assert KeyMatches(s, l, k);
    GuardLeaves(l.guards, g, At(l, k).lifetime);
    assert NoFuture(l', k);
    if k in s.entries {
      var generation := s.entries[k].generation;
      GuardLeaves(s.guardRefs, g, generation);
      assert g in GuardsAt(s.guardRefs, k, generation) <==> g in CurrentGuards(l, k);
      if g in CurrentGuards(l, k) {
        ReleaseShape(s.(guardRefs := s.guardRefs - {g}), k, false);
        DroppedMatches(s.entries[k], At(l, k), |CurrentGuards(l, k)|);
      }
    }
  }

  lemma TerminateMatches(s: Reg, l: Ledger, k: Key, cause: Cause, lastError: Option<string>)
    requires Matches(s, l)
    ensures KeyMatches(Step(s, Terminate(k, cause, lastError)), LStep(l, Terminate(k, cause, lastError)), k)
  {
    var l' := LStep(l, Terminate(k, cause, lastError));
    assert KeyMatches(s, l, k);
    assert CurrentGuards(l', k) == CurrentGuards(l, k);
    assert NoFuture(l', k);
  }

  lemma AckMatches(s: Reg, l: Ledger, k: Key)
    requires Matches(s, l)
    ensures KeyMatches(Step(s, Ack(k)), LStep(l, Ack(k)), k)
  {
    assert KeyMatches(s, l, k);
  }

  lemma ForceOutMatches(s: Reg, l: Ledger, op: Op, k: Key)
    requires Matches(s, l)
    requires op == ForceOut(k) || (op.ForceOutAll? && InChannel(k, op.channel))
    ensures KeyMatches(Step(s, op), LStep(l, op), k)
  {
    assert KeyMatches(s, l, k);
    assert NoFuture(LStep(l, op), k);
  }

  predicate Touches(op: Op, k: Key) {
    match op
    case RegisterGuard(_, g, _, _) => g.key == k
    case DropGuard(g) => g.key == k
    case ForceOutAll(channel) => InChannel(k, channel)
    case _ => op.key == k
  }

  lemma RegistryUntouched(s: Reg, op: Op, k: Key)
    requires !Touches(op, k)
    ensures SameAt(s, Step(s, op), k)
  {
    match op
    case ReleaseBare(j, _) =>
      if j in s.entries { ReleaseShape(s, j, true); }
    case DropGuard(g) =>
      if g.key in s.entries { ReleaseShape(s.(guardRefs := s.guardRefs - {g}), g.key, false); }
    case _ =>
  }

  lemma Untouched(s: Reg, l: Ledger, op: Op, k: Key)
    requires KeyMatches(s, l, k) && !Touches(op, k)
    ensures KeyMatches(Step(s, op), LStep(l, op), k)
  {
    RegistryUntouched(s, op, k);
    Undisturbed(s, l, Step(s, op), LStep(l, op), k);
  }

  /** Guard references come and go with the guards. */
  lemma GuardRefsAfter(s: Reg, op: Op)
    ensures s.nextGeneration <= Step(s, op).nextGeneration
    ensures op.RegisterGuard? ==>
              (var k, after := op.guard.key, Step(s, op);
               k in after.entries && after.guardRefs == s.guardRefs[op.guard := after.entries[k].generation])
    ensures op.DropGuard? ==> Step(s, op).guardRefs == s.guardRefs - {op.guard}
    ensures !op.RegisterGuard? && !op.DropGuard? ==> Step(s, op).guardRefs == s.guardRefs
  {
    match op
    case ReleaseBare(j, _) =>
      if j in s.entries { ReleaseShape(s, j, true); }
    case DropGuard(g) =>
      if g.key in s.entries { ReleaseShape(s.(guardRefs := s.guardRefs - {g}), g.key, false); }
    case _ =>
  }

  lemma GuardRefsMatch(s: Reg, l: Ledger, op: Op)
    requires Matches(s, l) && Protocol(l, op)
    ensures Step(s, op).guardRefs.Keys == LStep(l, op).guards.Keys
    ensures forall g :: g in Step(s, op).guardRefs ==> Step(s, op).guardRefs[g] <= Step(s, op).nextGeneration
  {
    GuardRefsAfter(s, op);
    if op.RegisterGuard? { assert KeyMatches(s, l, op.guard.key); }
  }

  lemma StepMatches(s: Reg, l: Ledger, op: Op)
    requires Matches(s, l) && Protocol(l, op)
    ensures Matches(Step(s, op), LStep(l, op))
  {
    GuardRefsMatch(s, l, op);
    forall k ensures KeyMatches(Step(s, op), LStep(l, op), k) {
      if !Touches(op, k) {
        assert KeyMatches(s, l, k);
        Untouched(s, l, op, k);
      } else {
        match op
        case RegisterBare(url, _, params, now) => BareRegisterMatches(s, l, url, k, params, now);
        case RegisterGuard(url, g, params, now) => GuardRegisterMatches(s, l, url, g, params, now);
        case ReleaseBare(_, tag) => ReleaseMatches(s, l, k, tag);
        case DropGuard(g) => DropMatches(s, l, g);
        case Ack(_) => AckMatches(s, l, k);
        case Terminate(_, cause, lastError) => TerminateMatches(s, l, k, cause, lastError);
        case ForceOut(_) => ForceOutMatches(s, l, op, k);
        case ForceOutAll(_) => ForceOutMatches(s, l, op, k);
      }
    }
  }

  /** Over every legal run the registry's scalars are what the ledger says. */
  lemma {:induction false} Simulation(ops: seq<Op>)
    requires Legal(ops)
    ensures Matches(Run(ops), LRun(ops))
  {
    if ops == [] {
    } else {
      Simulation(ops[..|ops| - 1]);
      StepMatches(Run(ops[..|ops| - 1]), LRun(ops[..|ops| - 1]), ops[|ops| - 1]);
    }
  }
}
