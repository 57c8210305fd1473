/**
 * The declared-intent subscription registry as a value: what each of its mutators does to the entries,
 * the caller-readable mirror, the guard references and the liveness epoch.
 */
module Registry {
  import opened Util
  import BookBuilder

  datatype Channel = Ticker | Book | BookRaw | Trade | Ohlc | Status | Executions | Balances | Heartbeat

  datatype WsUrl = Public | Auth

  /** A subscription key; no pair means the channel-wide subscription. */
  datatype Key = Key(channel: Channel, pair: Option<string>)

  datatype Depth = D10 | D25 | D100 | D500 | D1000

  function WireValue(depth: Depth): nat {
    match depth case D10 => 10 case D25 => 25 case D100 => 100 case D500 => 500 case D1000 => 1000
  }

  /** The depth subscribed and maintained, bumped for headroom of the checksum. */
  function WireDepth(depth: Depth): Depth {
    if depth == D10 then D25 else depth
  }

  /** The caller's subscribe options; only a maintained book's depth is ever looked at. */
  datatype Params = BookParams(depth: Depth) | OtherParams(options: nat)

  datatype Cause = SubscribeAckBudgetExhausted | NonTransientWireRejection | CapabilityRevoked | ClientClosed

  datatype SubState = Pending | Acked | Terminated(cause: Cause, lastError: Option<string>)

  /** `builder` is the maintained book, if any; `lastSequence` the last frame sequence seen. */
  datatype Entry = Entry(url: WsUrl, key: Key, params: Params, count: nat, builder: Option<BookBuilder.Book>,
                         lastSequence: Option<nat>, generation: nat, state: SubState,
                         tombstoneHolders: nat, staleReleaseCredits: nat)

  datatype MirrorRow = MirrorRow(state: SubState, registeredAt: real)

  /** A guard's reference to a key. */
  datatype GuardRef = GuardRef(handler: nat, key: Key)

  /** Guard references with the generation each was recorded against. */
  type GuardRefs = map<GuardRef, nat>

  datatype Reg = Reg(entries: map<Key, Entry>, mirror: map<Key, MirrorRow>, nextGeneration: nat,
                     guardRefs: GuardRefs, epoch: nat)

  const EMPTY: Reg := Reg(map[], map[], 0, map[], 0)

  /** Only a per-pair book subscription with a maintained depth seeds a book. */
  function SeededBuilder(key: Key, params: Params): Option<BookBuilder.Book> {
    if key.channel == Book && key.pair.Some? && params.BookParams?
    then Some(BookBuilder.EmptyBook(key.pair.value, WireValue(WireDepth(params.depth)), WireValue(params.depth)))
    else None
  }

  function NewEntry(url: WsUrl, key: Key, params: Params): Entry {
    Entry(url, key, params, 1, SeededBuilder(key, params), None, 0, Pending, 0, 0)
  }

  predicate IsTombstone(e: Entry) {
    e.state.Terminated?
  }

  function Monus(a: nat, b: nat): nat {
    if a >= b then a - b else 0
  }

  /** The guard references to `k` recorded at one generation. */
  function GuardsAt(refs: GuardRefs, k: Key, generation: nat): set<GuardRef> {
    set g | g in refs && g.key == k && refs[g] == generation
  }

  /**
   * A revival takes the reviver's options and book, restarts the entry under a new generation and turns
   * the dead countdown into credits.
   */
  function Revived(e: Entry, reviver: Entry, generation: nat, dyingGuards: nat, guardBacked: bool): Entry {
    var owed := Monus(Monus(e.tombstoneHolders, dyingGuards), if guardBacked then 0 else 1);
    e.(params := reviver.params, builder := reviver.builder, lastSequence := None, generation := generation,
       state := Pending, count := 1, tombstoneHolders := 0, staleReleaseCredits := e.staleReleaseCredits + owed)
  }

  /** The entry a register leaves at its key. */
  function RegisteredEntry(s: Reg, e: Entry, guardBacked: bool): Entry {
    var generation := s.nextGeneration + 1;
    if e.key !in s.entries then e.(generation := generation)
    else
      var present := s.entries[e.key];
      if present.count == 0
      then Revived(present, e, generation, |GuardsAt(s.guardRefs, e.key, present.generation)|, guardBacked)
      else present.(count := present.count + 1)
  }

  /** Registers a subscriber and returns the count after it. */
  function Register(s: Reg, e: Entry, now: real, guardBacked: bool): (Reg, nat) {
    var after := RegisteredEntry(s, e, guardBacked);
    (s.(entries := s.entries[e.key := after],
        mirror := if after.count == 1 then s.mirror[e.key := MirrorRow(Pending, now)] else s.mirror,
        nextGeneration := s.nextGeneration + 1,
        epoch := s.epoch + 1),
     after.count)
  }

  function Deregister(s: Reg, k: Key): Reg {
    s.(entries := s.entries - {k}, mirror := s.mirror - {k}, epoch := s.epoch + 1)
  }

  predicate InChannel(k: Key, channel: Option<Channel>) {
    channel.None? || k.channel == channel.value
  }

  function DeregisterAll(s: Reg, channel: Option<Channel>): Reg {
    var removed := set k | k in s.entries && InChannel(k, channel);
    s.(entries := s.entries - removed, mirror := s.mirror - removed, epoch := s.epoch + 1)
  }

  /** The holders an entry is still counting. */
  function Holders(e: Entry): nat {
    if IsTombstone(e) then e.tombstoneHolders else e.count
  }

  /** A release that reaches the count: the tombstone countdown or the live count. */
  function Countdown(s: Reg, k: Key): (Reg, nat)
    requires k in s.entries
  {
    var e := s.entries[k];
    if IsTombstone(e) then
      var left := Monus(e.tombstoneHolders, 1);
      var after := s.(entries := s.entries[k := e.(tombstoneHolders := left)]);
      (if left == 0 then Deregister(after, k) else after, 0)
    else
      var left := Monus(e.count, 1);
      var after := s.(entries := s.entries[k := e.(count := left)], epoch := s.epoch + 1);
      (if left == 0 then Deregister(after, k) else after, left)
  }

  /** A bare release first pays off a credit, then needs a bare slot; a guard's own release skips both. */
  function ReleaseInner(s: Reg, k: Key, allowCredit: bool): (Reg, nat) {
    if k !in s.entries then (s, 0)
    else
      var e := s.entries[k];
      if allowCredit && e.staleReleaseCredits > 0 then
        (s.(entries := s.entries[k := e.(staleReleaseCredits := e.staleReleaseCredits - 1)]), e.count)
      else if allowCredit && Monus(Holders(e), |GuardsAt(s.guardRefs, k, e.generation)|) == 0 then (s, e.count)
      else Countdown(s, k)
  }

  function Release(s: Reg, k: Key): (Reg, nat) {
    ReleaseInner(s, k, true)
  }

  function RecordGuardRef(s: Reg, g: GuardRef): Reg {
    if g.key in s.entries then s.(guardRefs := s.guardRefs[g := s.entries[g.key].generation]) else s
  }

  /** A guard recorded in another lifetime than the present entry's releases nothing. */
  function ReleaseGuardRef(s: Reg, g: GuardRef): (Reg, nat) {
    var forgotten := s.(guardRefs := s.guardRefs - {g});
    if g in s.guardRefs && g.key in s.entries && s.guardRefs[g] != s.entries[g.key].generation
    then (forgotten, s.entries[g.key].count)
    else ReleaseInner(forgotten, g.key, false)
  }

  function WithState(s: Reg, k: Key, e: Entry): Reg {
    s.(entries := s.entries[k := e],
       mirror := if k in s.mirror then s.mirror[k := s.mirror[k].(state := e.state)] else s.mirror)
  }

  function NoteAcked(s: Reg, k: Key): Reg {
    if k in s.entries && s.entries[k].state.Pending? then WithState(s, k, s.entries[k].(state := Acked)) else s
  }

  function NoteTerminated(s: Reg, k: Key, cause: Cause, lastError: Option<string>): Reg {
    if k !in s.entries || IsTombstone(s.entries[k]) then s
    else
      var e := s.entries[k];
      WithState(s, k, e.(tombstoneHolders := e.count, count := 0, state := Terminated(cause, lastError)))
      .(epoch := s.epoch + 1)
  }

  const U32_MAX: nat := 0xFFFF_FFFF

  /** How many frames a sequence skipped; a snapshot, a duplicate and a regression skip none. */
  function Skipped(last: Option<nat>, sequence: nat, isSnapshot: bool): Option<nat> {
    if isSnapshot || last.None? || sequence <= last.value + 1 then None
    else
      var missed := sequence - last.value - 1;
      Some(if missed > U32_MAX then U32_MAX else missed)
  }

  /** Notes a channel-wide entry's frame sequence. */
  function NoteSequence(s: Reg, channel: Channel, sequence: nat, isSnapshot: bool): (Reg, Option<nat>) {
    var k := Key(channel, None);
    if k !in s.entries then (s, None)
    else
      var e := s.entries[k];
      (s.(entries := s.entries[k := e.(lastSequence := Some(sequence))]), Skipped(e.lastSequence, sequence, isSnapshot))
  }

  /** Does any live entry route to `url`? */
  predicate HasUrlEntry(s: Reg, url: WsUrl) {
    exists k :: k in s.entries && s.entries[k].url == url && !IsTombstone(s.entries[k])
  }

  // ---------------------------------------------------------------- runs

  /**
   * What the reactor is asked to do.  `tag` is which of the caller's holds a bare release gives up, if any:
   * the release itself is anonymous, so the registry never sees it.
   */
  datatype Op =
    | RegisterBare(url: WsUrl, key: Key, params: Params, now: real)
    | RegisterGuard(url: WsUrl, guard: GuardRef, params: Params, now: real)
    | ReleaseBare(key: Key, tag: Option<nat>)
    | DropGuard(guard: GuardRef)
    | Ack(key: Key)
    | Terminate(key: Key, cause: Cause, lastError: Option<string>)
    | ForceOut(key: Key)
    | ForceOutAll(channel: Option<Channel>)

  function Step(s: Reg, op: Op): Reg {
    match op
    case RegisterBare(url, key, params, now) => Register(s, NewEntry(url, key, params), now, false).0
    case RegisterGuard(url, guard, params, now) =>
      RecordGuardRef(Register(s, NewEntry(url, guard.key, params), now, true).0, guard)
    case ReleaseBare(key, _) => Release(s, key).0
    case DropGuard(guard) => ReleaseGuardRef(s, guard).0
    case Ack(key) => NoteAcked(s, key)
    case Terminate(key, cause, lastError) => NoteTerminated(s, key, cause, lastError)
    case ForceOut(key) => Deregister(s, key)
    case ForceOutAll(channel) => DeregisterAll(s, channel)
  }

  function Run(ops: seq<Op>): Reg {
    if ops == [] then EMPTY else Step(Run(ops[..|ops| - 1]), ops[|ops| - 1])
  }
}
